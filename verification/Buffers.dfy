/** Byte buffers: concatenation, and copying as `Uint8Array.set` does. */
module Buffers {
  import opened Bits

  function Concat(parts: seq<seq<byte>>): seq<byte> {
    if parts == [] then [] else Concat(parts[..|parts| - 1]) + parts[|parts| - 1]
  }

  lemma {:induction false} ConcatLength(shards: seq<seq<byte>>, len: nat)
    requires forall i :: 0 <= i < |shards| ==> |shards[i]| == len
    ensures |Concat(shards)| == |shards| * len
  {
    if shards != [] {
      ConcatLength(shards[..|shards| - 1], len);
      assert |shards| * len == (|shards| - 1) * len + len;
    }
  }

  lemma {:induction false} ConcatAppend(a: seq<seq<byte>>, b: seq<seq<byte>>)
    ensures Concat(a + b) == Concat(a) + Concat(b)
  {
    if b == [] {
      assert a + b == a;
    } else {
      var front := b[..|b| - 1];
      ConcatAppend(a, front);
      assert (a + b)[..|a + b| - 1] == a + front;
    }
  }

  lemma ConcatNone(parts: seq<seq<byte>>)
    requires |parts| == 0
    ensures Concat(parts) == []
  {
  }

  lemma ConcatOne(part: seq<byte>)
    ensures Concat([part]) == part
  {
  }

  /** Copies src into dst at an offset. */
  method SetAt(dst: array<byte>, src: seq<byte>, offset: nat)
    requires offset + |src| <= dst.Length
    modifies dst
    ensures dst[..] == old(dst[..offset]) + src + old(dst[offset + |src|..])
    ensures dst[..offset] == old(dst[..offset]) && dst[offset..offset + |src|] == src
  {
    for j := 0 to |src|
      invariant dst[..offset] == old(dst[..offset])
      invariant dst[offset..offset + j] == src[..j]
      invariant dst[offset + |src|..] == old(dst[offset + |src|..])
    {
      dst[offset + j] := src[j];
    }
    assert dst[..] == dst[..offset] + dst[offset..offset + |src|] + dst[offset + |src|..];
  }
}
