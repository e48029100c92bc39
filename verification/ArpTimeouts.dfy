/** The retransmission timer, and a sender that hears nothing: only the timer and the application act on it. */
module ArpTimeouts {
  import opened Bits
  import opened ArpSpec

  /** The timer expires exactly if some segment in flight was last sent a timeout ago; otherwise nothing
      happens. What is resent is a segment sent least recently; it is marked, and all others stay. The
      window is cut to one segment, and the threshold to half the window. */
  lemma TimerFires(s: Sender, now: real)
    ensures var (t, frames) := Tick(s, now);
            && (frames != [] <==> exists i :: 0 <= i < |s.inFlight| && now - s.inFlight[i].sentAt >= s.rto)
            && (frames == [] ==> t == s)
            && (frames != [] ==> exists i ::
                  && 0 <= i < |s.inFlight| && frames == [DataFrame(s.inFlight[i].seqNo, s.inFlight[i].payload)]
                  && (forall j :: 0 <= j < |s.inFlight| ==> s.inFlight[j].sentAt >= s.inFlight[i].sentAt)
                  && t.inFlight == s.inFlight[i := s.inFlight[i].(sentAt := now, retransmitted := true)]
                  && t.sendQueue == s.sendQueue && t.nextSeq == s.nextSeq && t.highestAck == s.highestAck)
            && (frames != [] ==> t.cwnd == 1.0 && t.ssthresh == HalvedWindow(s.cwnd) && t.mode == SlowStart
                                 && t.dupAcks == 0 && t.rtoExpiries == s.rtoExpiries + 1)
  {
    hide HalvedWindow, MinReal;
    if s.inFlight != [] {
      var o := Oldest(s.inFlight);
      assert Expires(s, now) ==> Tick(s, now).1 == [DataFrame(s.inFlight[o].seqNo, s.inFlight[o].payload)];
      assert Expires(s, now) ==>
        Tick(s, now).0.inFlight == s.inFlight[o := s.inFlight[o].(sentAt := now, retransmitted := true)];
    }
  }

  datatype Quiet = Enqueues(payload: seq<byte>, now: real) | Ticks(now: real)

  function QuietStep(s: Sender, ev: Quiet): Sender {
    match ev
    case Enqueues(payload, now) => Enqueue(s, payload, now).0
    case Ticks(now) => Tick(s, now).0
  }

  /** The sequence number retransmitted by a step, if the timer expires in it. */
  function Retransmitted(s: Sender, ev: Quiet): seq<nat> {
    match ev
    case Enqueues(_, _) => []
    case Ticks(now) => if Expires(s, now) then [s.inFlight[Oldest(s.inFlight)].seqNo] else []
  }

  /** The state after a silent stretch, and the sequence numbers retransmitted in it, in order. */
  function QuietRun(s: Sender, evs: seq<Quiet>): (Sender, seq<nat>) {
    if evs == [] then (s, [])
    else
      var (t, h) := QuietRun(s, evs[..|evs| - 1]);
      var ev := evs[|evs| - 1];
      (QuietStep(t, ev), h + Retransmitted(t, ev))
  }

  /** A sender with something in flight whose window a timeout has collapsed. */
  ghost predicate Collapsed(s: Sender) {
    Contiguous(s) && s.inFlight != [] && s.cwnd == INITIAL_CWND
  }

  /** Every timeout collapses the window. */
  lemma TimeoutCollapses(s: Sender, now: real)
    requires Contiguous(s) && Expires(s, now)
    ensures Collapsed(Tick(s, now).0)
  {
    hide HalvedWindow, MinReal;
  }

  ghost predicate SameSegments(s: Sender, t: Sender) {
    && t.nextSeq == s.nextSeq && |t.inFlight| == |s.inFlight|
    && forall i :: 0 <= i < |s.inFlight| ==>
         t.inFlight[i].seqNo == s.inFlight[i].seqNo && t.inFlight[i].payload == s.inFlight[i].payload
  }

  lemma QuietStepKeeps(s: Sender, ev: Quiet)
    requires Collapsed(s)
    ensures Collapsed(QuietStep(s, ev)) && SameSegments(s, QuietStep(s, ev))
  {
    hide HalvedWindow, MinReal;
    match ev {
      case Enqueues(payload, now) =>
        if payload != [] {
          NothingSendable(Enqueued(s, payload), now);
        }
      case Ticks(now) =>
    }
  }

  lemma NothingSendable(s: Sender, now: real)
    requires s.cwnd == INITIAL_CWND && s.inFlight != []
    ensures Pumped(s, now) == s && PumpedFrames(s) == []
  {
    assert Sendable(s) == 0;
    assert s.sendQueue[..0] == [] && s.sendQueue[0..] == s.sendQueue;
  }

  /** After a timeout, and until an acknowledgement arrives, no fresh data is sent. */
  lemma {:induction false} NoFreshData(s: Sender, evs: seq<Quiet>)
    requires Collapsed(s)
    ensures var t := QuietRun(s, evs).0; Collapsed(t) && SameSegments(s, t)
  {
    hide QuietStep;
    if evs != [] {
      NoFreshData(s, evs[..|evs| - 1]);
      QuietStepKeeps(QuietRun(s, evs[..|evs| - 1]).0, evs[|evs| - 1]);
    }
  }

  /** x doubled j times. */
  function Doubled(x: real, j: nat): real {
    if j == 0 then x else 2.0 * Doubled(x, j - 1)
  }

  /** The timer doubles with every expiry, up to its maximum. */
  lemma {:induction false} Backoff(s: Sender, evs: seq<Quiet>)
    requires 0.0 <= s.rto <= MAX_RTO_MS
    ensures var (t, h) := QuietRun(s, evs); t.rto == MinReal(Doubled(s.rto, |h|), MAX_RTO_MS)
  {
    hide QuietStep, Retransmitted;
    if evs != [] {
      var t, h := QuietRun(s, evs[..|evs| - 1]).0, QuietRun(s, evs[..|evs| - 1]).1;
      Backoff(s, evs[..|evs| - 1]);
      RtoStep(t, evs[|evs| - 1]);
      DoubledGrows(s.rto, |h|);
    }
  }

  lemma {:induction false} DoubledGrows(x: real, j: nat)
    requires x >= 0.0
    ensures Doubled(x, j) >= 0.0
  {
    if j > 0 {
      DoubledGrows(x, j - 1);
    }
  }

  lemma RtoStep(s: Sender, ev: Quiet)
    ensures |Retransmitted(s, ev)| <= 1
    ensures QuietStep(s, ev).rto == if Retransmitted(s, ev) == [] then s.rto else MinReal(s.rto * 2.0, MAX_RTO_MS)
  {
    hide HalvedWindow, MinReal;
  }

  // ---------- no starvation ----------

  function FirstOf(h: seq<nat>, n: nat): seq<nat> {
    if n < |h| then h[..n] else h
  }

  /** While some segment is still to have its turn, exactly those in h were sent since `start`. */
  ghost predicate Turns(t: Sender, h: seq<nat>, start: real) {
    && Distinct(h) && (forall k :: 0 <= k < |h| ==> t.nextSeq - |t.inFlight| <= h[k] < t.nextSeq)
    && forall i :: 0 <= i < |t.inFlight| ==> (t.inFlight[i].seqNo in h <==> t.inFlight[i].sentAt >= start)
  }

  lemma SomeoneWaits(t: Sender, h: seq<nat>) returns (i: nat)
    requires Contiguous(t) && |h| < |t.inFlight|
    ensures i < |t.inFlight| && t.inFlight[i].seqNo !in h
  {
    var lo := t.nextSeq - |t.inFlight|;
    var all := Interval(lo, t.nextSeq);
    IntervalSize(lo, t.nextSeq);
    var served: set<int> := Elements(h);
    ElementsBound(h);
    if all <= served {
      SubsetSize(all, served);
    }
    var q :| q in all && q !in served;
    i := q - lo;
  }

  lemma TurnStep(t: Sender, h: seq<nat>, start: real, ev: Quiet)
    requires Collapsed(t) && Turns(t, h, start) && |h| < |t.inFlight| && ev.now >= start
    ensures Turns(QuietStep(t, ev), h + Retransmitted(t, ev), start)
  {
    hide HalvedWindow, MinReal;
    match ev {
      case Enqueues(payload, now) =>
        assert h + [] == h;
        if payload != [] {
          NothingSendable(Enqueued(t, payload), now);
        }
      case Ticks(now) =>
        assert h + [] == h;
        if Expires(t, now) {
          var i := SomeoneWaits(t, h);
          var o := Oldest(t.inFlight);
          assert t.inFlight[o].sentAt <= t.inFlight[i].sentAt < start;
        }
    }
  }

  /** No starvation: let n segments be in flight when the network falls silent, all sent before
      `start`. The first n timeouts from then on retransmit n different segments - every one of them. */
  lemma {:induction false} NoStarvation(s: Sender, evs: seq<Quiet>, start: real)
    requires Collapsed(s)
    requires forall i :: 0 <= i < |s.inFlight| ==> s.inFlight[i].sentAt < start
    requires forall k :: 0 <= k < |evs| ==> evs[k].now >= start
    ensures var (t, h) := QuietRun(s, evs);
            && Distinct(FirstOf(h, |s.inFlight|))
            && (|h| < |s.inFlight| ==> Turns(t, h, start))
            && (|h| >= |s.inFlight| ==> forall i :: 0 <= i < |s.inFlight| ==> s.inFlight[i].seqNo in h)
  {
    if evs == [] {
      assert Turns(s, [], start);
    } else {
      hide QuietStep, Turns;
      var n, front, ev := |s.inFlight|, evs[..|evs| - 1], evs[|evs| - 1];
      var (t, h) := QuietRun(s, front);
      NoStarvation(s, front, start);
      NoFreshData(s, front);
      RtoStep(t, ev);
      var h' := h + Retransmitted(t, ev);
      if |h| < n {
        TurnStep(t, h, start, ev);
        QuietStepKeeps(t, ev);
        AllServed(s, QuietStep(t, ev), h', start);
      } else {
        assert FirstOf(h', n) == FirstOf(h, n);
      }
    }
  }

  lemma AllServed(s: Sender, t: Sender, h: seq<nat>, start: real)
    requires Collapsed(t) && SameSegments(s, t) && Turns(t, h, start) && |h| <= |s.inFlight|
    ensures Distinct(FirstOf(h, |s.inFlight|))
    ensures |h| == |s.inFlight| ==> forall i :: 0 <= i < |s.inFlight| ==> s.inFlight[i].seqNo in h
  {
    if |h| == |s.inFlight| {
      var all := Interval(t.nextSeq - |t.inFlight|, t.nextSeq);
      var served: set<int> := Elements(h);
      IntervalSize(t.nextSeq - |t.inFlight|, t.nextSeq);
      DistinctSize(h);
      SubsetSize(served, all);
      forall i | 0 <= i < |s.inFlight| ensures s.inFlight[i].seqNo in h {
        assert t.inFlight[i].seqNo in all;
      }
    }
  }
}
