/** The logarithm and antilogarithm tables, and the arithmetic that looks results up in them.
    Every operation is proved equal to the field operation of module `GF256`. */
module GFTables {
  import opened Bits
  import opened GF256
  import opened Wrappers

  datatype Tables = Tables(exp: seq<byte>, log: seq<byte>) {
    /** `exp` lists the powers of the generator, twice over; `log` is its inverse. */
    ghost predicate Valid() {
      && |exp| == 512 && |log| == 256
      && (forall i :: 0 <= i < 510 ==> exp[i] == Alpha(i))
      && (forall x :: 1 <= x < 256 ==> log[x] == Log(x))
      && exp[510] == exp[511] == log[0] == 0
    }

    function Mul(a: byte, b: byte): (r: byte)
      requires Valid()
      ensures r == Times(a, b)
    {
      ProductByLogs(a, b);
      if a == 0 || b == 0 then 0 else exp[log[a] as int + log[b] as int]
    }

    /** None stands for the thrown division by zero. */
    function Div(a: byte, b: byte): (r: Option<byte>)
      requires Valid()
      ensures r.None? <==> b == 0
      ensures b != 0 ==> r.Some? && Times(r.value, b) == a
    {
      TimesLaws(b, 0, 0);
      if b == 0 then None
      else if a == 0 then Some(0)
      else
        LogDifference(a, b);
        Some(exp[(log[a] as int + 255 - log[b] as int) % 255])
    }

    /** None stands for the thrown inverse of zero. */
    function Inv(a: byte): (r: Option<byte>)
      requires Valid()
      ensures r.None? <==> a == 0
      ensures a != 0 ==> r == Some(Inverse(a))
    {
      if a == 0 then None
      else
        Some(exp[255 - log[a] as int])
    }
  }

  lemma AlphaWraps(i: nat)
    ensures Alpha(i + 255) == Alpha(i)
  {
    hide Alpha, Times;
    AlphaAdd(255, i);
    AlphaPeriod();
    TimesOneLeft(Alpha(i));
  }

  lemma ProductByLogs(a: byte, b: byte)
    ensures a == 0 || b == 0 ==> Times(a, b) == 0
    ensures a != 0 && b != 0 ==> Alpha(Log(a) + Log(b)) == Times(a, b)
  {
    hide Alpha, Times;
    TimesLaws(a, b, 0);
    TimesLaws(b, a, 0);
    if a != 0 && b != 0 {
      AlphaAdd(Log(a), Log(b));
    }
  }

  lemma LogDifference(a: byte, b: byte)
    requires a != 0 && b != 0
    ensures Times(Alpha((Log(a) + 255 - Log(b)) % 255), b) == a
  {
    hide Alpha, Times;
    var d := (Log(a) + 255 - Log(b)) % 255;
    AlphaAdd(d, Log(b));
    if d + Log(b) != Log(a) {
      AlphaWraps(Log(a));
    }
  }

  /** The tables invert one another on the 255 nonzero elements. */
  lemma TablesAreInverse(t: Tables)
    requires t.Valid()
    ensures forall i :: 0 <= i < 255 ==> t.exp[i] != 0 && t.log[t.exp[i]] == i
    ensures forall x :: 1 <= x < 256 ==> t.exp[t.log[x]] == x
  {
    hide Alpha;
    forall i | 0 <= i < 255 ensures t.exp[i] != 0 && t.log[t.exp[i]] == i {
      AlphaNonzero(i);
    }
  }

  /** The table loop run at module load. */
  method BuildTables() returns (t: Tables)
    ensures t.Valid()
  {
    hide Alpha;
    var exp := new byte[512](_ => 0);
    var log := new byte[256](_ => 0);
    var x: byte := 1;
    AlphaZero();
    for i := 0 to 255
      invariant x == Alpha(i)
      invariant forall j :: 0 <= j < i ==> exp[j] == Alpha(j)
      invariant forall j :: 0 <= j < i ==> log[Alpha(j)] == j
      invariant log[0] == exp[510] == exp[511] == 0
    {
      AlphaNonzero(i);
      forall j: nat | j < i ensures Alpha(j) != Alpha(i) {
        AlphaDistinct(j, i);
      }
      exp[i] := x;
      log[x] := i;
      AlphaNext(i);
      x := if 2 * x >= 256 then Xor(2 * x, PRIMITIVE) else 2 * x;
    }
    for i := 255 to 510
      invariant forall j :: 0 <= j < i ==> exp[j] == Alpha(j)
      invariant exp[510] == exp[511] == 0
      invariant forall j :: 0 <= j < 255 ==> log[Alpha(j)] == j
      invariant log[0] == 0
    {
      AlphaWraps(i - 255);
      exp[i] := exp[i - 255];
    }
    t := Tables(exp[..], log[..]);
    assert t.exp == exp[..] && t.log == log[..];
    forall y | 1 <= y < 256 ensures t.log[y] == Log(y) {
      assert log[Alpha(Log(y))] == Log(y);
    }
  }

  lemma AlphaNext(i: nat)
    ensures Alpha(i + 1) == Double(Alpha(i))
  {
  }

  /** dst := dst + c * src, byte by byte; `false` stands for the thrown length mismatch. */
  method MulAddRow(t: Tables, c: byte, src: seq<byte>, dst: array<byte>) returns (ok: bool)
    requires t.Valid()
    modifies dst
    ensures ok <==> |src| == dst.Length
    ensures ok ==> forall i :: 0 <= i < dst.Length ==> dst[i] == Add(old(dst[i]), Times(c, src[i]))
    ensures !ok ==> dst[..] == old(dst[..])
  {
    hide Alpha, Times, Add;
    if |src| != dst.Length {
      return false;
    }
    forall i | 0 <= i < dst.Length ensures Add(dst[i], Times(0, src[i])) == dst[i] {
      TimesLaws(src[i], 0, 0);
      AddLaws(dst[i], 0, 0);
    }
    if c == 0 {
      return true;
    }
    var logC: int := t.log[c];
    for i := 0 to |src|
      invariant forall j :: 0 <= j < i ==> dst[j] == Add(old(dst[j]), Times(c, src[j]))
      invariant forall j :: i <= j < dst.Length ==> dst[j] == old(dst[j])
    {
      var s := src[i];
      TimesLaws(c, 0, 0);
      AddLaws(dst[i], 0, 0);
      if s != 0 {
        AlphaAdd(Log(c), Log(s));
        dst[i] := Add(dst[i], t.exp[logC + t.log[s] as int]);
      }
    }
    return true;
  }
}
