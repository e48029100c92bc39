/** Cutting a buffer into k equal, zero-padded shards, and putting it together again. */
module Sharding {
  import opened Bits
  import opened Buffers
  import opened LinearAlgebra
  import opened ReedSolomon
  import opened Wrappers

  function CeilDiv(n: nat, k: nat): nat
    requires k >= 1
  {
    (n + k - 1) / k
  }

  lemma CeilDivBounds(n: nat, k: nat)
    requires k >= 1
    ensures n <= CeilDiv(n, k) * k < n + k
  {
    var q, r := (n + k - 1) / k, (n + k - 1) % k;
    assert n + k - 1 == q * k + r;
  }

  lemma OffsetBound(i: nat, k: nat, len: nat)
    requires i < k
    ensures (i + 1) * len == i * len + len <= k * len
  {
    assert (i + 1) * len <= k * len;
  }

  /** k shards of ceil(|data| / k) bytes whose concatenation is the data followed by zeros. */
  method SplitIntoShards(data: seq<byte>, k: nat) returns (shards: seq<seq<byte>>, originalLength: nat)
    requires k >= 1
    ensures originalLength == |data|
    ensures IsData(shards, k, CeilDiv(|data|, k))
    ensures exists pad: nat :: pad < k && Concat(shards) == data + Zeros(pad)
  {
    var shardLen := CeilDiv(|data|, k);
    var padded := shardLen * k;
    CeilDivBounds(|data|, k);
    var buf := new byte[padded](_ => 0);
    SetAt(buf, data, 0);
    shards := CutShards(buf[..], k, shardLen);
    originalLength := |data|;
    assert Concat(shards) == data + Zeros(padded - |data|);
  }

  method CutShards(buf: seq<byte>, k: nat, shardLen: nat) returns (shards: seq<seq<byte>>)
    requires |buf| == k * shardLen
    ensures IsData(shards, k, shardLen) && Concat(shards) == buf
  {
    shards := [];
    for i := 0 to k
      invariant IsData(shards, i, shardLen)
      invariant i * shardLen <= |buf| && Concat(shards) == buf[..i * shardLen]
    {
      OffsetBound(i, k, shardLen);
      var lo, hi := i * shardLen, (i + 1) * shardLen;
      assert buf[..hi] == buf[..lo] + buf[lo..hi];
      assert (shards + [buf[lo..hi]])[..i] == shards;
      shards := shards + [buf[lo..hi]];
    }
  }

  /** Copies the shards one after the other into slots of the first one's length, each over what is
      there. */
  function Overlaid(out: seq<byte>, shards: seq<seq<byte>>, len: nat): (r: Option<seq<byte>>)
    ensures r.Some? ==> |r.value| == |out|
  {
    if shards == [] then Some(out)
    else
      var before := Overlaid(out, shards[..|shards| - 1], len);
      if before.None? then None else CopiedAt(before.value, shards[|shards| - 1], (|shards| - 1) * len)
  }

  /** What copying src to an offset makes of dst; None if it does not fit. */
  function CopiedAt(dst: seq<byte>, src: seq<byte>, offset: nat): (r: Option<seq<byte>>)
    ensures r.Some? ==> |r.value| == |dst|
  {
    if offset + |src| > |dst| then None else Some(dst[..offset] + src + dst[offset + |src|..])
  }

  lemma OverlaidStep(out: seq<byte>, shards: seq<seq<byte>>, len: nat, i: nat)
    requires i < |shards|
    ensures var before := Overlaid(out, shards[..i], len);
            Overlaid(out, shards[..i + 1], len) ==
            if before.None? then None else CopiedAt(before.value, shards[i], i * len)
  {
    assert shards[..i + 1][..i] == shards[..i];
  }

  function Slots(shards: seq<seq<byte>>): (len: nat) {
    if |shards| > 0 then |shards[0]| else 0
  }

  /** The first `originalLength` bytes of the copied shards, which for equal shards are the
      concatenation. The error stands for the range error thrown when a shard does not fit the buffer
      sized after the first one. */
  method RecombineShards(shards: seq<seq<byte>>, originalLength: nat) returns (r: Result<seq<byte>>)
    ensures |shards| > 0 && IsData(shards, |shards|, |shards[0]|) ==>
              r == Ok(Concat(shards)[..Min(originalLength, |Concat(shards)|)])
    ensures var copied := Overlaid(Zeros(|shards| * Slots(shards)), shards, Slots(shards));
            r == if copied.None? then Err(OffsetOutOfRange) else Ok(copied.value[..Min(originalLength, |copied.value|)])
  {
    var shardLen := if |shards| > 0 then |shards[0]| else 0;
    var size := |shards| * shardLen;
    var out := new byte[size](_ => 0);
    assert out[..] == Zeros(size);
    var ok := CopyShards(out, shards, shardLen);
    if |shards| > 0 && IsData(shards, |shards|, |shards[0]|) {
      ConcatLength(shards, shardLen);
      EqualShardsConcat(Zeros(size), shards, shardLen);
      assert Concat(shards) + Zeros(size)[size..] == Concat(shards);
    }
    r := if ok then Ok(out[..Min(originalLength, size)]) else Err(OffsetOutOfRange);
  }

  /** Copies the shards into consecutive slots, until one does not fit. */
  method CopyShards(out: array<byte>, shards: seq<seq<byte>>, shardLen: nat) returns (ok: bool)
    modifies out
    ensures ok <==> Overlaid(old(out[..]), shards, shardLen).Some?
    ensures ok ==> out[..] == Overlaid(old(out[..]), shards, shardLen).value
  {
    ghost var before := out[..];
    assert shards[..0] == [] && shards[..|shards|] == shards;
    for i := 0 to |shards|
      invariant Overlaid(before, shards[..i], shardLen) == Some(out[..])
    {
      hide *;
      OverlaidStep(before, shards, shardLen, i);
      var offset := i * shardLen;
      if offset + |shards[i]| > out.Length {
        StaysNone(before, shards, shardLen, i + 1);
        return false;
      }
      ghost var was := out[..];
      SetAt(out, shards[i], offset);
      CopiedMeans(was, shards[i], offset, out[..]);
    }
    return true;
  }

  lemma CopiedMeans(was: seq<byte>, src: seq<byte>, offset: nat, now: seq<byte>)
    requires offset + |src| <= |was| && now == was[..offset] + src + was[offset + |src|..]
    ensures CopiedAt(was, src, offset) == Some(now)
  {
  }

  lemma {:induction false} StaysNone(out: seq<byte>, shards: seq<seq<byte>>, len: nat, i: nat)
    requires i <= |shards| && Overlaid(out, shards[..i], len).None?
    ensures Overlaid(out, shards, len).None?
    decreases |shards|
  {
    if i < |shards| {
      assert shards[..|shards| - 1][..i] == shards[..i];
      StaysNone(out, shards[..|shards| - 1], len, i);
    } else {
      assert shards[..i] == shards;
    }
  }

  lemma {:induction false} EqualShardsConcat(out: seq<byte>, shards: seq<seq<byte>>, len: nat)
    requires (forall i :: 0 <= i < |shards| ==> |shards[i]| == len) && |out| >= |shards| * len
    ensures Overlaid(out, shards, len) == Some(Concat(shards) + out[|shards| * len..])
  {
    if shards == [] {
      assert Concat(shards) + out[0..] == out;
    } else {
      var n, last := |shards| - 1, shards[|shards| - 1];
      OffsetBound(n, |shards|, len);
      EqualShardsConcat(out, shards[..n], len);
      ConcatLength(shards[..n], len);
      CopyNext(Concat(shards[..n]), out, last, n * len);
    }
  }

  lemma CopyNext(front: seq<byte>, out: seq<byte>, last: seq<byte>, at: nat)
    requires |front| == at && at + |last| <= |out|
    ensures CopiedAt(front + out[at..], last, at) == Some(front + last + out[at + |last|..])
  {
    assert (front + out[at..])[..at] == front;
    assert (front + out[at..])[at + |last|..] == out[at + |last|..];
  }

  function Min(a: nat, b: nat): nat {
    if a < b then a else b
  }
}
