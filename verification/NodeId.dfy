/** 160-bit identifiers as 20-byte strings, their exclusive-or distance, and their buckets. Every
    operation on bytes is proved to be the operation on 160-bit numbers that it stands for. */
module NodeId {
  import opened Bits
  import opened Wrappers
  import opened Endian

  const NODE_ID_BITS := 160

  type Id = s: seq<byte> | |s| == 20 witness seq(20, _ => 0)

  function Value(id: seq<byte>): nat {
    FromBigEndian(id)
  }

  // ---------- distance ----------

  function XorBytes(a: seq<byte>, b: seq<byte>): (d: seq<byte>)
    requires |a| == |b|
    ensures |d| == |a|
  {
    seq(|a|, i requires 0 <= i < |a| => XorByte(a[i], b[i]))
  }

  lemma {:induction false} XorBytesIsXor(a: seq<byte>, b: seq<byte>)
    requires |a| == |b|
    ensures Value(XorBytes(a, b)) == Xor(Value(a), Value(b))
  {
    if a != [] {
      var n := |a| - 1;
      XorBytesIsXor(a[..n], b[..n]);
      assert XorBytes(a, b)[..n] == XorBytes(a[..n], b[..n]);
      assert Pow2(8) == 256;
      XorConcat(8, Value(a[..n]), Value(b[..n]), a[n], b[n]);
    }
  }

  /** None stands for the thrown length mismatch. */
  method XorDistance(a: seq<byte>, b: seq<byte>) returns (d: Option<seq<byte>>)
    ensures d.None? <==> |a| != |b|
    ensures d.Some? ==> |d.value| == |a| && Value(d.value) == Xor(Value(a), Value(b))
    ensures d.Some? ==> d.value == XorBytes(a, b)
  {
    if |a| != |b| {
      return None;
    }
    var out := new byte[|a|](_ => 0);
    for i := 0 to |a|
      invariant forall j :: 0 <= j < i ==> out[j] == XorBytes(a, b)[j]
    {
      out[i] := XorByte(a[i], b[i]);
    }
    assert out[..] == XorBytes(a, b);
    XorBytesIsXor(a, b);
    return Some(out[..]);
  }

  /** Negative, zero or positive as a sorting comparison wants it: the numeric order. */
  method CompareDistance(a: seq<byte>, b: seq<byte>) returns (r: Option<int>)
    ensures r.None? <==> |a| != |b|
    ensures r.Some? ==> (r.value < 0 <==> Value(a) < Value(b)) && (r.value > 0 <==> Value(a) > Value(b))
    ensures r.Some? ==> (r.value == 0 <==> a == b)
  {
    if |a| != |b| {
      return None;
    }
    for i := 0 to |a|
      invariant a[..i] == b[..i]
    {
      if a[i] < b[i] {
        FirstDifferenceDecides(a, b, i);
        return Some(-1);
      }
      if a[i] > b[i] {
        FirstDifferenceDecides(b, a, i);
        return Some(1);
      }
    }
    assert a[..|a|] == a && b[..|b|] == b;
    return Some(0);
  }

  function Distance(a: Id, b: Id): nat {
    Xor(Value(a), Value(b))
  }

  /** The distance is a metric, and from any point every distance is taken at most once. */
  lemma DistanceIsMetric(a: Id, b: Id, c: Id)
    ensures Distance(a, b) == 0 <==> a == b
    ensures Distance(a, b) == Distance(b, a)
    ensures Distance(a, c) <= Distance(a, b) + Distance(b, c)
    ensures Distance(a, b) == Distance(a, c) ==> b == c
  {
    var x, y, z := Value(a), Value(b), Value(c);
    hide Xor, Value;
    XorSelf(x);
    XorComm(x, y);
    if Xor(x, y) == 0 {
      XorIsZero(x, y);
      FromBigEndianInjectiveIds(a, b);
    }
    CancelMiddle(x, y, z);
    XorAtMostSum(Xor(x, y), Xor(y, z));
    if Xor(x, y) == Xor(x, z) {
      XorAssoc(x, x, y);
      XorAssoc(x, x, z);
      XorZero(y);
      XorZero(z);
      FromBigEndianInjectiveIds(b, c);
    }
  }

  lemma CancelMiddle(x: nat, y: nat, z: nat)
    ensures Xor(Xor(x, y), Xor(y, z)) == Xor(x, z)
  {
    hide Xor;
    XorAssoc(x, y, Xor(y, z));
    XorAssoc(y, y, z);
    XorSelf(y);
    XorZero(z);
  }

  lemma FromBigEndianInjectiveIds(a: Id, b: Id)
    ensures Value(a) == Value(b) ==> a == b
  {
    if Value(a) == Value(b) {
      FromBigEndianInjective(a, b);
    }
  }

  // ---------- buckets ----------

  /** Position of the highest set bit, -1 for zero. */
  function HighestBit(d: nat): (i: int)
    ensures i >= -1 && (i == -1 <==> d == 0)
    ensures i >= 0 ==> Pow2(i) <= d < Pow2(i + 1)
  {
    if d == 0 then -1 else if d == 1 then 0 else 1 + HighestBit(d / 2)
  }

  lemma HighestBitIs(d: nat, i: nat)
    requires Pow2(i) <= d < Pow2(i + 1)
    ensures HighestBit(d) == i
  {
    var j := HighestBit(d);
    if i < j {
      Pow2Monotone(i + 1, j);
    } else if j < i {
      Pow2Monotone(j + 1, i);
    }
  }

  function BucketOf(self: Id, id: Id): int {
    HighestBit(Distance(self, id))
  }

  lemma BucketInRange(self: Id, id: Id)
    ensures -1 <= BucketOf(self, id) < NODE_ID_BITS
  {
    var d := Distance(self, id);
    FromBigEndianBound(self);
    FromBigEndianBound(id);
    Pow256IsPow2(20);
    XorBound(Value(self), Value(id), NODE_ID_BITS);
    if BucketOf(self, id) >= NODE_ID_BITS {
      Pow2Monotone(NODE_ID_BITS, BucketOf(self, id));
    }
  }

  /** The id that spells a small number. */
  function SmallId(b: byte): Id {
    seq(19, _ => 0) + [b]
  }

  lemma SmallIdDistance(b: byte)
    ensures Distance(SmallId(0), SmallId(b)) == b
  {
    SmallIdValue(0);
    SmallIdValue(b);
    XorComm(0, b);
    XorZero(b);
  }

  lemma SmallIdValue(b: byte)
    ensures Value(SmallId(b)) == b
  {
    assert SmallId(b)[..19] == seq(19, _ => 0);
    ZerosValue(19);
  }

  lemma {:induction false} ZerosValue(n: nat)
    ensures Value(seq(n, _ => 0)) == 0
  {
    if n > 0 {
      ZerosValue(n - 1);
      assert seq(n, _ => 0)[..n - 1] == seq(n - 1, _ => 0);
    }
  }

  /** The bucket of an id: i exactly when its distance is in [2^i, 2^(i+1)), -1 for the node itself. */
  method BucketIndex(self: Id, target: Id) returns (r: int)
    ensures r == BucketOf(self, target) && -1 <= r < NODE_ID_BITS
    ensures r == -1 <==> self == target
    ensures r >= 0 ==> Pow2(r) <= Distance(self, target) < Pow2(r + 1)
  {
    var distance := XorDistance(self, target);
    var dist := distance.value;
    DistanceIsMetric(self, target, target);
    assert dist[0..] == dist;
    for i := 0 to |dist|
      invariant Value(dist) == Value(dist[i..])
    {
      SplitFirst(dist[i..]);
      assert dist[i..][1..] == dist[i + 1..];
      if dist[i] != 0 {
        var msb := TopBit(dist[i]);
        HighestBitOfRest(dist, i, msb);
        var bitsFromTop := i * 8 + (7 - msb);
        return NODE_ID_BITS - 1 - bitsFromTop;
      }
    }
    assert dist[20..] == [];
    return -1;
  }

  lemma HighestBitOfRest(dist: seq<byte>, i: nat, msb: nat)
    requires i < |dist| == 20 && Value(dist) == Value(dist[i..])
    requires Pow2(msb) <= dist[i] < Pow2(msb + 1)
    ensures HighestBit(Value(dist)) == 8 * (19 - i) + msb
  {
    LeadingByte(dist[i..], msb);
    HighestBitIs(Value(dist), 8 * (19 - i) + msb);
  }

  method TopBit(b: byte) returns (msb: nat)
    requires b != 0
    ensures msb <= 7 && Pow2(msb) <= b < Pow2(msb + 1)
  {
    assert Pow2(8) == 256 && Pow2(0) == 1;
    hide Pow2;
    msb := 0;
    var bit := 7;
    while bit >= 0
      invariant -1 <= bit <= 7 && b < Pow2(bit + 1)
    {
      TopBitTest(b, bit);
      if b / Pow2(bit) % 2 == 1 {
        msb := bit;
        return;
      }
      bit := bit - 1;
    }
  }

  lemma TopBitTest(b: nat, bit: nat)
    requires b < Pow2(bit + 1)
    ensures b / Pow2(bit) % 2 == 1 <==> b >= Pow2(bit)
  {
    var p := Pow2(bit);
    assert b == b / p * p + b % p;
    TwiceAtLeast(b / p, p);
  }

  lemma TwiceAtLeast(q: nat, p: nat)
    ensures q >= 2 ==> q * p >= 2 * p
    ensures q == 0 ==> q * p == 0
  {
  }

  lemma LeadingByte(s: seq<byte>, msb: nat)
    requires s != [] && Pow2(msb) <= s[0] < Pow2(msb + 1)
    ensures Pow2(8 * (|s| - 1) + msb) <= Value(s) < Pow2(8 * (|s| - 1) + msb + 1)
  {
    var n := |s| - 1;
    SplitFirst(s);
    FromBigEndianBound(s[1..]);
    Pow256IsPow2(n);
    Pow2Add(8 * n, msb);
    Pow2Add(8 * n, msb + 1);
    ScaledBounds(Pow2(8 * n), s[0], Pow2(msb), Pow2(msb + 1));
  }

  lemma ScaledBounds(p: nat, x: nat, lo: nat, hi: nat)
    requires lo <= x < hi
    ensures p * lo <= x * p && x * p + p <= p * hi
  {
    assert x * p + p == (x + 1) * p;
    assert (x + 1) * p <= hi * p;
  }

  // ---------- hexadecimal ----------

  function HexDigit(n: nat): char
    requires n < 16
  {
    if n < 10 then '0' + n as char else 'a' + (n - 10) as char
  }

  predicate IsHexDigit(c: char) {
    '0' <= c <= '9' || 'a' <= c <= 'f' || 'A' <= c <= 'F'
  }

  function DigitValue(c: char): (n: nat)
    requires IsHexDigit(c)
    ensures n < 16
  {
    if '0' <= c <= '9' then c as nat - '0' as nat
    else if 'a' <= c <= 'f' then c as nat - 'a' as nat + 10
    else c as nat - 'A' as nat + 10
  }

  function BytesToHex(b: seq<byte>): (s: string)
    ensures |s| == 2 * |b| && forall i :: 0 <= i < |s| ==> IsHexDigit(s[i])
  {
    if b == [] then ""
    else BytesToHex(b[..|b| - 1]) + [HexDigit(b[|b| - 1] / 16), HexDigit(b[|b| - 1] % 16)]
  }

  /** None stands for the thrown odd length. Strings of other characters are not part of this model. */
  function HexToBytes(hex: string): (r: Option<seq<byte>>)
    requires forall i :: 0 <= i < |hex| ==> IsHexDigit(hex[i])
    ensures r.None? <==> |hex| % 2 == 1
  {
    if |hex| % 2 == 1 then None
    else Some(seq(|hex| / 2, i requires 0 <= i < |hex| / 2 => 16 * DigitValue(hex[2 * i]) + DigitValue(hex[2 * i + 1])))
  }

  lemma {:induction false} HexRoundTrip(b: seq<byte>)
    ensures HexToBytes(BytesToHex(b)) == Some(b)
  {
    if b != [] {
      var front, last := b[..|b| - 1], b[|b| - 1];
      HexRoundTrip(front);
      HexUnfold(b);
      hide HexToBytes, DigitValue, BytesToHex, HexDigit, IsHexDigit;
      DigitOfHex(last / 16);
      DigitOfHex(last % 16);
      HexAppend(BytesToHex(front), HexDigit(last / 16), HexDigit(last % 16));
      assert b == front + [last];
    } else {
      assert HexToBytes(BytesToHex(b)).value == b;
    }
  }

  /** Each byte becomes two of these characters, the high half first. */
  lemma {:induction false} HexSpells(b: seq<byte>, i: nat)
    requires i < |b|
    ensures BytesToHex(b)[2 * i] == "0123456789abcdef"[b[i] / 16]
    ensures BytesToHex(b)[2 * i + 1] == "0123456789abcdef"[b[i] % 16]
  {
    HexUnfold(b);
    if i < |b| - 1 {
      HexSpells(b[..|b| - 1], i);
    } else {
      HexDigits(b[i] / 16);
      HexDigits(b[i] % 16);
    }
    hide HexDigit, BytesToHex;
  }

  lemma HexDigits(n: nat)
    requires n < 16
    ensures HexDigit(n) == "0123456789abcdef"[n]
  {
  }

  lemma HexUnfold(b: seq<byte>)
    requires b != []
    ensures BytesToHex(b) == BytesToHex(b[..|b| - 1]) + [HexDigit(b[|b| - 1] / 16), HexDigit(b[|b| - 1] % 16)]
  {
  }

  lemma HexAppend(s: string, c: char, d: char)
    requires |s| % 2 == 0 && (forall i :: 0 <= i < |s| ==> IsHexDigit(s[i])) && IsHexDigit(c) && IsHexDigit(d)
    ensures HexToBytes(s + [c, d]) == Some(HexToBytes(s).value + [16 * DigitValue(c) + DigitValue(d)])
  {
    var t, n := s + [c, d], |s| / 2;
    assert |t| / 2 == n + 1 && t[2 * n] == c && t[2 * n + 1] == d;
    var long, short := HexToBytes(t).value, HexToBytes(s).value;
    forall i | 0 <= i < n ensures long[i] == short[i] {
      assert t[2 * i] == s[2 * i] && t[2 * i + 1] == s[2 * i + 1];
    }
    assert long == short + [long[n]];
  }

  lemma DigitOfHex(n: nat)
    requires n < 16
    ensures IsHexDigit(HexDigit(n)) && DigitValue(HexDigit(n)) == n
  {
  }

  /** Different keys have different hexadecimal names. */
  lemma HexInjective(a: seq<byte>, b: seq<byte>)
    requires BytesToHex(a) == BytesToHex(b)
    ensures a == b
  {
    HexRoundTrip(a);
    HexRoundTrip(b);
  }
}
