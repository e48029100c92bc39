/** What a receiver has after any data frames, in any order and any number of times each: everything that
    came is delivered or kept, and what is delivered and acknowledged is exactly the part without gaps. */
module ArpReceiving {
  import opened Bits
  import opened Buffers
  import opened ArpFrames
  import opened ArpSpec

  /** The receiver, and the payloads delivered, after these frames. */
  function Receiving(frames: seq<Frame>): (Receiver, seq<seq<byte>>) {
    if frames == [] then (INITIAL_RECEIVER, [])
    else
      var n := |frames| - 1;
      var (r, delivered) := Receiving(frames[..n]);
      var (t, more, ackFrame) := OnData(r, frames[n]);
      (t, delivered + more)
  }

  /** Where a number first occurs; past the end if it does not. */
  function FirstAt(frames: seq<Frame>, q: nat): (i: nat)
    ensures i <= |frames| && (i < |frames| ==> frames[i].seqNo == q)
    ensures forall j :: 0 <= j < i ==> frames[j].seqNo != q
  {
    if frames == [] || frames[0].seqNo == q then 0 else 1 + FirstAt(frames[1..], q)
  }

  predicate Came(frames: seq<Frame>, q: nat) {
    FirstAt(frames, q) < |frames|
  }

  /** What came first under the number. */
  function FirstPayload(frames: seq<Frame>, q: nat): seq<byte> {
    if Came(frames, q) then frames[FirstAt(frames, q)].payload else []
  }

  /** Of the numbers, the least that never came is the next one expected; those below are delivered and
      those above that came are kept, all with the payload that came first. */
  ghost predicate Has(r: Receiver, delivered: seq<seq<byte>>, frames: seq<Frame>) {
    && !Came(frames, r.expectedSeq) && |delivered| == r.expectedSeq
    && (forall q :: 0 <= q < r.expectedSeq ==> Came(frames, q) && delivered[q] == FirstPayload(frames, q))
    && (forall q :: q in r.outOfOrder <==> q > r.expectedSeq && Came(frames, q))
    && (forall q :: q in r.outOfOrder ==> r.outOfOrder[q] == FirstPayload(frames, q))
  }

  lemma CameSnoc(frames: seq<Frame>, f: Frame, q: nat)
    ensures Came(frames + [f], q) <==> Came(frames, q) || f.seqNo == q
    ensures Came(frames + [f], q) ==>
              FirstPayload(frames + [f], q) == if Came(frames, q) then FirstPayload(frames, q) else f.payload
  {
    var i, k := FirstAt(frames, q), FirstAt(frames + [f], q);
    hide FirstAt;
    if i < |frames| {
      assert (frames + [f])[i] == frames[i];
      assert forall j :: 0 <= j < k ==> (frames + [f])[j].seqNo != q;
      assert forall j :: 0 <= j < i ==> (frames + [f])[j].seqNo != q;
    } else {
      assert forall j :: 0 <= j < |frames| ==> (frames + [f])[j].seqNo != q;
      assert (frames + [f])[|frames|] == f;
    }
  }

  /** The run is what the buffer holds up to the first gap. */
  ghost predicate IsRunOf(run: seq<seq<byte>>, buffer: map<nat, seq<byte>>, from: nat) {
    && from + |run| !in buffer
    && forall q :: from <= q < from + |run| ==> q in buffer && run[q - from] == buffer[q]
  }

  lemma {:induction false} RunIsBuffered(buffer: map<nat, seq<byte>>, from: nat)
    ensures IsRunOf(Run(buffer, from), buffer, from)
    decreases |buffer|
  {
    if from in buffer {
      var rest := buffer - {from};
      RunIsBuffered(rest, from + 1);
      var run, tail := Run(buffer, from), Run(rest, from + 1);
      assert run == [buffer[from]] + tail;
      hide Run;
      forall q | from <= q < from + |run| ensures q in buffer && run[q - from] == buffer[q] {
        if q > from {
          assert q in rest && tail[q - (from + 1)] == rest[q];
        }
      }
    }
  }

  lemma OnDataHas(r: Receiver, delivered: seq<seq<byte>>, frames: seq<Frame>, f: Frame)
    requires Has(r, delivered, frames)
    ensures var (t, more, ackFrame) := OnData(r, f);
            && Has(t, delivered + more, frames + [f])
            && ackFrame == Frame(FRAME_ACK, 0, t.expectedSeq, r.rwnd, [])
            && t.bytesDelivered == r.bytesDelivered + |Concat(more)| && t.rwnd == r.rwnd
            && t.duplicates == r.duplicates + if f.seqNo < r.expectedSeq then 1 else 0
  {
    hide Run, FirstAt, FirstPayload, Came, Concat;
    forall q: nat
      ensures Came(frames + [f], q) <==> Came(frames, q) || f.seqNo == q
      ensures Came(frames + [f], q) ==>
                FirstPayload(frames + [f], q) == if Came(frames, q) then FirstPayload(frames, q) else f.payload
    {
      CameSnoc(frames, f, q);
    }
    if f.seqNo == r.expectedSeq {
      RunIsBuffered(r.outOfOrder, r.expectedSeq + 1);
      InOrderHas(r, delivered, frames, f, Run(r.outOfOrder, r.expectedSeq + 1), OnData(r, f).0);
    } else {
      ConcatNone([]);
      assert delivered + [] == delivered;
    }
  }

  lemma InOrderHas(r: Receiver, delivered: seq<seq<byte>>, frames: seq<Frame>, f: Frame, run: seq<seq<byte>>,
                   t: Receiver)
    requires Has(r, delivered, frames) && f.seqNo == r.expectedSeq
    requires forall q: nat ::
               && (Came(frames + [f], q) <==> Came(frames, q) || f.seqNo == q)
               && (Came(frames + [f], q) ==> FirstPayload(frames + [f], q)
                                              == if Came(frames, q) then FirstPayload(frames, q) else f.payload)
    requires IsRunOf(run, r.outOfOrder, r.expectedSeq + 1) && t.expectedSeq == r.expectedSeq + 1 + |run|
    requires t.outOfOrder == map q | q in r.outOfOrder && !(r.expectedSeq < q < t.expectedSeq) :: r.outOfOrder[q]
    ensures Has(t, delivered + ([f.payload] + run), frames + [f])
  {
    var e, all, frames' := r.expectedSeq, delivered + ([f.payload] + run), frames + [f];
    hide FirstAt, FirstPayload, Came;
    assert !Came(frames', t.expectedSeq) && |all| == t.expectedSeq;
    forall q | 0 <= q < t.expectedSeq ensures Came(frames', q) && all[q] == FirstPayload(frames', q) {
      if q > e {
        assert q in r.outOfOrder && all[q] == run[q - (e + 1)];
      } else {
        assert all[q] == if q == e then f.payload else delivered[q];
      }
    }
    forall q: nat ensures q in t.outOfOrder <==> q > t.expectedSeq && Came(frames', q) {
    }
    forall q | q in t.outOfOrder ensures t.outOfOrder[q] == FirstPayload(frames', q) {
    }
  }

  /** In whatever order data arrives, and however often: nothing that came is lost, nothing comes out
      twice, and the gap that is reported is the first there is. */
  lemma {:induction false} ReceivingHas(frames: seq<Frame>)
    ensures var (r, delivered) := Receiving(frames);
            Has(r, delivered, frames) && r.bytesDelivered == |Concat(delivered)| && r.rwnd == DEFAULT_RWND
  {
    if frames != [] {
      var n := |frames| - 1;
      ReceivingHas(frames[..n]);
      var (r, delivered) := Receiving(frames[..n]);
      hide Has, Concat, OnData;
      OnDataHas(r, delivered, frames[..n], frames[n]);
      assert frames[..n] + [frames[n]] == frames;
      ConcatAppend(delivered, OnData(r, frames[n]).1);
    }
  }

  /** The acknowledgement of the last frame names the least number that never came. */
  lemma AcknowledgesFirstGap(frames: seq<Frame>, f: Frame)
    ensures var ackFrame := OnData(Receiving(frames).0, f).2;
            && ackFrame.kind == FRAME_ACK && ackFrame.window == DEFAULT_RWND && !Came(frames + [f], ackFrame.ack)
            && forall q :: 0 <= q < ackFrame.ack ==> Came(frames + [f], q)
  {
    ReceivingHas(frames);
    hide OnData;
    OnDataHas(Receiving(frames).0, Receiving(frames).1, frames, f);
  }

  /** How many of the frames arrived when everything up to their number had come before. */
  ghost function Late(frames: seq<Frame>): nat {
    if frames == [] then 0
    else
      var n := |frames| - 1;
      Late(frames[..n]) + if forall q :: 0 <= q <= frames[n].seqNo ==> Came(frames[..n], q) then 1 else 0
  }

  lemma {:induction false} DuplicatesAreLate(frames: seq<Frame>)
    ensures Receiving(frames).0.duplicates == Late(frames)
  {
    if frames != [] {
      var n := |frames| - 1;
      DuplicatesAreLate(frames[..n]);
      ReceivingHas(frames[..n]);
      hide Came;
      var r := Receiving(frames[..n]).0;
      OnDataHas(r, Receiving(frames[..n]).1, frames[..n], frames[n]);
      hide OnData;
      assert frames[n].seqNo < r.expectedSeq <==> forall q :: 0 <= q <= frames[n].seqNo ==> Came(frames[..n], q);
    }
  }

  /** Once every segment of a message has come, in any order, the message is delivered, with nothing left
      in the buffer and all of it acknowledged. */
  lemma AnyOrderDelivers(frames: seq<Frame>, segs: seq<seq<byte>>)
    requires forall f :: f in frames ==> f.seqNo < |segs| && f.payload == segs[f.seqNo]
    requires forall q :: 0 <= q < |segs| ==> Came(frames, q)
    ensures var (r, delivered) := Receiving(frames);
            delivered == segs && r.outOfOrder == map[] && r.expectedSeq == |segs|
  {
    ReceivingHas(frames);
    hide Receiving, FirstAt;
    var (r, delivered) := Receiving(frames);
    forall q | 0 <= q < |segs| ensures FirstPayload(frames, q) == segs[q] {
      assert Came(frames, q);
      assert frames[FirstAt(frames, q)] in frames;
    }
    forall q: nat | q >= |segs| ensures !Came(frames, q) {
      assert forall i :: 0 <= i < |frames| ==> frames[i] in frames;
    }
    hide Came, FirstPayload;
    assert r.expectedSeq == |segs|;
    assert delivered == segs;
    assert r.outOfOrder.Keys == {};
  }
}
