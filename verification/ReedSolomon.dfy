/** Reed-Solomon erasure coding: Gauss-Jordan inversion in place, the encoder, the reconstructor
    from any k surviving shards, and the splitting of a buffer into shards. */
module ReedSolomon {
  import opened Bits
  import opened GF256
  import opened GFTables
  import opened LinearAlgebra
  import opened Cauchy
  import opened Wrappers

  datatype Result<T> = Ok(value: T) | Err(error: RsError)

  datatype RsError =
    | BadK | BadM | TooManyShards
    | WrongShardCount | UnequalLength | TooFewShards | RowLengthMismatch | Singular | OffsetOutOfRange

  // ---------- Gauss-Jordan elimination ----------

  /** The first row at or below `from` with a nonzero entry in column `col`, if any. */
  method FindPivot(a: array<seq<byte>>, from: nat, col: nat) returns (swap: int)
    requires from <= a.Length && forall r :: 0 <= r < a.Length ==> col < |a[r]|
    ensures swap == -1 ==> forall r :: from <= r < a.Length ==> a[r][col] == 0
    ensures swap != -1 ==>
              from <= swap < a.Length && a[swap][col] != 0 && forall r :: from <= r < swap ==> a[r][col] == 0
  {
    for r := from to a.Length
      invariant forall i :: from <= i < r ==> a[i][col] == 0
    {
      if a[r][col] != 0 {
        return r;
      }
    }
    return -1;
  }

  /** Multiplies row `col` of both matrices by s. */
  method NormalizeRow(t: Tables, a: array<seq<byte>>, inverse: array<seq<byte>>, n: nat, col: nat, s: byte)
    requires t.Valid() && a != inverse && a.Length == inverse.Length == n && col < n
    requires |a[col]| == |inverse[col]| == n
    modifies a, inverse
    ensures a[..] == old(a[..])[col := Scaled(old(a[col]), s)]
    ensures inverse[..] == old(inverse[..])[col := Scaled(old(inverse[col]), s)]
  {
    hide Times;
    ghost var x, y := a[col], inverse[col];
    for c := 0 to n
      invariant |a[col]| == |inverse[col]| == n
      invariant a[..] == old(a[..])[col := a[col]] && inverse[..] == old(inverse[..])[col := inverse[col]]
      invariant forall i :: 0 <= i < n ==> a[col][i] == if i < c then Times(x[i], s) else x[i]
      invariant forall i :: 0 <= i < n ==> inverse[col][i] == if i < c then Times(y[i], s) else y[i]
    {
      a[col] := a[col][c := t.Mul(a[col][c], s)];
      inverse[col] := inverse[col][c := t.Mul(inverse[col][c], s)];
    }
    assert a[col] == Scaled(x, s) && inverse[col] == Scaled(y, s);
  }

  /** Adds `factor` times row `col` to row r of both matrices. */
  method EliminateRow(t: Tables, a: array<seq<byte>>, inverse: array<seq<byte>>, n: nat, r: nat, col: nat, factor: byte)
    requires t.Valid() && a != inverse && a.Length == inverse.Length == n && col < n && r < n && r != col
    requires |a[col]| == |inverse[col]| == |a[r]| == |inverse[r]| == n
    modifies a, inverse
    ensures a[..] == old(a[..])[r := PlusMultiple(old(a[r]), factor, old(a[col]))]
    ensures inverse[..] == old(inverse[..])[r := PlusMultiple(old(inverse[r]), factor, old(inverse[col]))]
  {
    hide Times, Add;
    ghost var x, y, p, q := a[r], inverse[r], a[col], inverse[col];
    for c := 0 to n
      invariant |a[r]| == |inverse[r]| == n
      invariant a[..] == old(a[..])[r := a[r]] && inverse[..] == old(inverse[..])[r := inverse[r]]
      invariant a[col] == p && inverse[col] == q
      invariant forall i :: 0 <= i < n ==> a[r][i] == if i < c then Add(x[i], Times(factor, p[i])) else x[i]
      invariant forall i :: 0 <= i < n ==> inverse[r][i] == if i < c then Add(y[i], Times(factor, q[i])) else y[i]
    {
      a[r] := a[r][c := Add(a[r][c], t.Mul(factor, a[col][c]))];
      inverse[r] := inverse[r][c := Add(inverse[r][c], t.Mul(factor, inverse[col][c]))];
    }
    assert a[r] == PlusMultiple(x, factor, p) && inverse[r] == PlusMultiple(y, factor, q);
  }

  /** Column `col` is a unit column in its first `rows` rows, the pivot row aside. */
  ghost predicate Cleared(a: Matrix, n: nat, col: nat, rows: nat)
    requires Square(a, n) && col < n && rows <= n
  {
    a[col][col] == 1 && forall i :: 0 <= i < rows && i != col ==> a[i][col] == 0
  }

  lemma ScaleKeepsUnits(a: Matrix, n: nat, col: nat, s: byte)
    requires Square(a, n) && col < n && UnitColumns(a, n, col)
    ensures UnitColumns(a[col := Scaled(a[col], s)], n, col)
  {
    hide Times;
    TimesLaws(s, 0, 0);
  }

  lemma EliminateKeepsUnits(a: Matrix, n: nat, r: nat, col: nat)
    requires Square(a, n) && col < n && r < n && r != col && UnitColumns(a, n, col) && Cleared(a, n, col, r)
    ensures var b := a[r := PlusMultiple(a[r], a[r][col], a[col])];
            UnitColumns(b, n, col) && Cleared(b, n, col, r + 1)
  {
    hide Times, Add;
    var f := a[r][col];
    var b := a[r := PlusMultiple(a[r], f, a[col])];
    TimesLaws(f, 0, 0);
    AddLaws(f, f, f);
    forall c | 0 <= c < col ensures b[r][c] == a[r][c] {
      AddLaws(a[r][c], 0, 0);
    }
  }

  /** Inverts a square matrix in place on a copy. It fails exactly on the singular matrices, and goes
      through without a swap exactly when all leading blocks are nonsingular. */
  method InvertMatrix(t: Tables, matrix: Matrix) returns (result: Result<Matrix>, ghost swapped: bool)
    requires t.Valid() && Square(matrix, |matrix|)
    ensures result.Ok? <==> TrivialKernel(matrix)
    ensures result.Ok? ==> LeftInverse(result.value, matrix)
    ensures result.Err? ==> result.error == Singular
    ensures result.Ok? && !swapped <==> LeadingBlocks(matrix)
  {
    hide Dot, Times, Reduced, TrivialKernel, LeftInverse, SameLeading, LeadingBlock;
    var n := |matrix|;
    var a := new seq<byte>[n](i requires 0 <= i < n => matrix[i]);
    var id := Identity(n);
    var inverse := new seq<byte>[n](i requires 0 <= i < n => id[i]);
    assert a[..] == matrix && inverse[..] == id;
    ReducedAtStart(matrix, n);
    swapped := false;
    LeadingAtStart(matrix, n);
    for col := 0 to n
      invariant Square(a[..], n) && Square(inverse[..], n)
      invariant Reduced(matrix, a[..], inverse[..], n) && UnitColumns(a[..], n, col)
      invariant !swapped ==> SameLeading(a[..], matrix, n, col)
      invariant !swapped ==> forall rows :: 0 <= rows <= col ==> LeadingBlock(matrix, n, rows)
      invariant swapped ==> !LeadingBlocks(matrix)
    {
      if a[col][col] == 0 {
        if !swapped {
          ZeroPivotBlock(matrix, a[..], n, col);
          swapped := true;
        }
        var swap := FindPivot(a, col + 1, col);
        if swap == -1 {
          NoPivotIsSingular(matrix, a[..], inverse[..], n, col);
          result := Err(Singular);
          return;
        }
        SwapRows(matrix, a, inverse, n, col, swap);
      }
      ghost var before := a[..];
      Pivot(t, matrix, a, inverse, n, col);
      if !swapped {
        LeadingGoesOn(matrix, before, a[..], n, col);
        UnitBlock(matrix, a[..], n, col + 1);
      }
    }
    ReducedAtEnd(matrix, a[..], inverse[..], n);
    result := Ok(inverse[..]);
  }

  /** Swaps a row at the diagonal with one below it, in both matrices. */
  method SwapRows(ghost m: Matrix, a: array<seq<byte>>, inverse: array<seq<byte>>, n: nat, col: nat, swap: nat)
    requires a != inverse && a.Length == inverse.Length == n && col < swap < n
    requires Square(a[..], n) && Square(inverse[..], n)
    requires Reduced(m, a[..], inverse[..], n) && UnitColumns(a[..], n, col)
    modifies a, inverse
    ensures a[..] == Swapped(old(a[..]), col, swap) && inverse[..] == Swapped(old(inverse[..]), col, swap)
    ensures Square(a[..], n) && Square(inverse[..], n)
    ensures Reduced(m, a[..], inverse[..], n) && UnitColumns(a[..], n, col)
  {
    hide Reduced;
    SwapKeeps(m, a[..], inverse[..], n, col, swap);
    ghost var a0, inverse0 := a[..], inverse[..];
    assert UnitColumns(Swapped(a0, col, swap), n, col);
    a[col], a[swap] := a[swap], a[col];
    inverse[col], inverse[swap] := inverse[swap], inverse[col];
    assert a[..] == Swapped(a0, col, swap) && inverse[..] == Swapped(inverse0, col, swap);
  }

  lemma LeadingAtStart(m: Matrix, n: nat)
    requires Square(m, n)
    ensures SameLeading(m, m, n, 0) && LeadingBlock(m, n, 0)
  {
    hide Kills;
  }

  lemma LeadingFromStart(a: Matrix, n: nat, col: nat)
    requires Square(a, n) && col < n
    ensures SameLeading(a, a, n, col + 1)
  {
    hide Kills;
  }

  lemma LeadingGoesOn(m: Matrix, a: Matrix, b: Matrix, n: nat, col: nat)
    requires Square(m, n) && Square(a, n) && Square(b, n)
    requires SameLeading(a, m, n, col) && SameLeading(b, a, n, col + 1)
    ensures SameLeading(b, m, n, col + 1)
  {
    hide Kills;
    forall rows | col + 1 <= rows <= n ensures SameKernel(b, m, n, rows) {
      assert SameKernel(a, m, n, rows) && SameKernel(b, a, n, rows);
    }
  }

  /** One column of the elimination, once the pivot is nonzero: it becomes a unit column. */
  method Pivot(t: Tables, ghost m: Matrix, a: array<seq<byte>>, inverse: array<seq<byte>>, n: nat, col: nat)
    requires t.Valid() && a != inverse && a.Length == inverse.Length == n && col < n
    requires Square(a[..], n) && Square(inverse[..], n) && a[col][col] != 0
    requires Reduced(m, a[..], inverse[..], n) && UnitColumns(a[..], n, col)
    modifies a, inverse
    ensures Square(a[..], n) && Square(inverse[..], n)
    ensures Reduced(m, a[..], inverse[..], n) && UnitColumns(a[..], n, col + 1)
    ensures SameLeading(a[..], old(a[..]), n, col + 1)
  {
    hide Dot, Times, Add, Reduced, SameLeading;
    ghost var a0 := a[..];
    LeadingFromStart(a0, n, col);
    var pivot := a[col][col];
    if pivot != 1 {
      var invPivot := t.Inv(pivot).value;
      ScaleKeeps(m, a[..], inverse[..], n, col, invPivot);
      ScaleKeepsUnits(a[..], n, col, invPivot);
      ScaleKeepsLeading(a[..], a0, n, col, invPivot);
      NormalizeRow(t, a, inverse, n, col, invPivot);
    }
    for r := 0 to n
      invariant Square(a[..], n) && Square(inverse[..], n)
      invariant Reduced(m, a[..], inverse[..], n) && UnitColumns(a[..], n, col) && Cleared(a[..], n, col, r)
      invariant SameLeading(a[..], a0, n, col + 1)
    {
      var factor := a[r][col];
      if r != col && factor != 0 {
        EliminateKeeps(m, a[..], inverse[..], n, r, col, factor);
        EliminateKeepsUnits(a[..], n, r, col);
        EliminateKeepsLeading(a[..], a0, n, r, col, factor);
        EliminateRow(t, a, inverse, n, r, col, factor);
      }
    }
  }

  // ---------- what a shard is ----------

  ghost predicate IsData(data: seq<seq<byte>>, k: nat, len: nat) {
    |data| == k && forall j :: 0 <= j < k ==> |data[j]| == len
  }

  /** The t-th byte of every data shard. */
  function Slice(data: seq<seq<byte>>, k: nat, t: nat): (v: Vec)
    requires k <= |data| && forall j :: 0 <= j < k ==> t < |data[j]|
    ensures |v| == k
  {
    seq(k, j requires 0 <= j < k => data[j][t])
  }

  /** Shard i of the code word: row i of the encoding matrix applied to every byte position. */
  ghost function Shard(data: seq<seq<byte>>, k: nat, len: nat, i: byte): (s: seq<byte>)
    requires k <= 256 && IsData(data, k, len)
    ensures |s| == len
  {
    seq(len, t requires 0 <= t < len => Dot(EncodingRow(i, k), Slice(data, k, t), k))
  }

  /** The code is systematic: the first k shards are the data. */
  lemma DataShard(data: seq<seq<byte>>, k: nat, len: nat, i: nat)
    requires k <= 256 && IsData(data, k, len) && i < k
    ensures Shard(data, k, len, i) == data[i]
  {
    hide Dot, Times;
    forall t | 0 <= t < len ensures Shard(data, k, len, i)[t] == data[i][t] {
      DotSingle(EncodingRow(i, k), Slice(data, k, t), k, i);
      TimesLaws(data[i][t], 0, 0);
    }
  }

  /** A parity shard divides what the data shards hold: where only shard j holds anything, parity shard i
      times i + j is the byte of shard j. */
  lemma ParityOfOne(data: seq<seq<byte>>, k: nat, len: nat, i: byte, j: nat, t: nat)
    requires j < k <= i && IsData(data, k, len) && t < len && forall c :: 0 <= c < k && c != j ==> data[c][t] == 0
    ensures Times(Add(i, j), Shard(data, k, len, i)[t]) == data[j][t]
  {
    hide Dot, Times, Add, Entry;
    DotSingle(EncodingRow(i, k), Slice(data, k, t), k, j);
    EntryLaw(i, j);
    TimesLaws(Add(i, j), Entry(i, j), data[j][t]);
    TimesLaws(data[j][t], 1, 0);
  }

  /** And it does so byte by byte for each data shard alone, and adds up the results. */
  lemma ShardsAdd(a: seq<seq<byte>>, b: seq<seq<byte>>, sum: seq<seq<byte>>, k: nat, len: nat, i: byte, t: nat)
    requires k <= 256 && IsData(a, k, len) && IsData(b, k, len) && IsData(sum, k, len) && t < len
    requires forall j :: 0 <= j < k ==> sum[j][t] == Add(a[j][t], b[j][t])
    ensures Shard(sum, k, len, i)[t] == Add(Shard(a, k, len, i)[t], Shard(b, k, len, i)[t])
  {
    hide Dot, Times, Add;
    var row, u, v, w := EncodingRow(i, k), Slice(a, k, t), Slice(b, k, t), Slice(sum, k, t);
    forall j | 0 <= j < k ensures PlusMultiple(u, 1, v)[j] == w[j] {
      TimesLaws(v[j], 1, 0);
    }
    assert PlusMultiple(u, 1, v) == w;
    DotPlusMultiple(u, 1, v, row, k);
    TimesLaws(Dot(v, row, k), 1, 0);
    DotComm(row, u, k);
    DotComm(row, v, k);
    DotComm(row, w, k);
  }

  // ---------- the codec ----------

  type Shards = seq<Option<seq<byte>>>

  ghost function Survivors(shards: Shards): set<int> {
    set i | 0 <= i < |shards| && shards[i].Some?
  }

  /** Some present nonempty shard is followed by a present shard of another length. */
  ghost predicate MixedLengths(shards: Shards) {
    exists i, j :: 0 <= i < j < |shards| && shards[i].Some? && shards[j].Some?
      && |shards[i].value| != 0 && |shards[i].value| != |shards[j].value|
  }

  /** Every present slot holds the shard of `data` that belongs there. */
  ghost predicate Agrees(shards: Shards, data: seq<seq<byte>>, k: nat, len: nat) {
    && k <= 256 && IsData(data, k, len) && |shards| <= 256
    && forall i :: 0 <= i < |shards| && shards[i].Some? ==> shards[i].value == Shard(data, k, len, i)
  }

  method BuildEncodingMatrix(t: Tables, k: nat, m: nat) returns (matrix: Matrix)
    requires t.Valid() && Sizes(k, m)
    ensures |matrix| == k + m && forall i :: 0 <= i < k + m ==> matrix[i] == EncodingRow(i, k)
  {
    hide EncodingRow;
    matrix := [];
    for i := 0 to k
      invariant |matrix| == i && forall r :: 0 <= r < i ==> matrix[r] == EncodingRow(r, k)
    {
      var row := IdentityRow(k, i);
      matrix := matrix + [row];
    }
    for i := 0 to m
      invariant |matrix| == k + i && forall r :: 0 <= r < k + i ==> matrix[r] == EncodingRow(r, k)
    {
      var row := CauchyRow(t, k, k + i);
      matrix := matrix + [row];
    }
  }

  method IdentityRow(k: nat, i: nat) returns (r: Vec)
    requires i < k <= 256
    ensures r == EncodingRow(i, k)
  {
    var row := new byte[k](_ => 0);
    row[i] := 1;
    r := row[..];
  }

  method CauchyRow(t: Tables, k: nat, xi: byte) returns (r: Vec)
    requires t.Valid() && k <= xi
    ensures r == EncodingRow(xi, k)
  {
    hide Times, Add;
    var row := new byte[k](_ => 0);
    for j := 0 to k
      invariant forall c :: 0 <= c < j ==> row[c] == Entry(xi, c)
    {
      AddCancel(xi, j);
      row[j] := t.Inv(Add(xi, j)).value;
    }
    r := row[..];
  }

  class Codec {
    const t: Tables
    const k: nat
    const m: nat
    const encodingMatrix: Matrix

    ghost predicate Valid() {
      && t.Valid() && Sizes(k, m)
      && |encodingMatrix| == k + m && forall i :: 0 <= i < k + m ==> encodingMatrix[i] == EncodingRow(i, k)
    }

    constructor (t: Tables, k: nat, m: nat, matrix: Matrix)
      requires t.Valid() && Sizes(k, m)
      requires |matrix| == k + m && forall i :: 0 <= i < k + m ==> matrix[i] == EncodingRow(i, k)
      ensures Valid() && this.k == k && this.m == m
    {
      this.t, this.k, this.m, this.encodingMatrix := t, k, m, matrix;
    }

    /** The checks of the source's constructor, and the codec they let through. */
    static method Make(t: Tables, k: int, m: int) returns (r: Result<Codec>)
      requires t.Valid()
      ensures k < 1 ==> r == Err(BadK)
      ensures k >= 1 > m ==> r == Err(BadM)
      ensures k >= 1 && m >= 1 && k + m > 256 ==> r == Err(TooManyShards)
      ensures k >= 1 && m >= 1 && k + m <= 256 ==>
                r.Ok? && fresh(r.value) && r.value.Valid() && r.value.k == k && r.value.m == m
    {
      if k < 1 { return Err(BadK); }
      if m < 1 { return Err(BadM); }
      if k + m > 256 { return Err(TooManyShards); }
      var matrix := BuildEncodingMatrix(t, k, m);
      var codec := new Codec(t, k, m, matrix);
      return Ok(codec);
    }

    /** The m parity shards of k equal-length data shards. */
    method Encode(data: seq<seq<byte>>) returns (r: Result<seq<seq<byte>>>)
      requires Valid()
      ensures |data| != k ==> r == Err(WrongShardCount)
      ensures |data| == k && !IsData(data, k, |data[0]|) ==> r == Err(UnequalLength)
      ensures |data| == k && IsData(data, k, |data[0]|) ==>
                r.Ok? && |r.value| == m && forall i :: 0 <= i < m ==> r.value[i] == Shard(data, k, |data[0]|, k + i)
    {
      hide Times, Add;
      if |data| != k { return Err(WrongShardCount); }
      var shardLen := |data[0]|;
      for j := 0 to k
        invariant forall i :: 0 <= i < j ==> |data[i]| == shardLen
      {
        if |data[j]| != shardLen { return Err(UnequalLength); }
      }
      var parity: seq<seq<byte>> := [];
      for i := 0 to m
        invariant |parity| == i && forall p :: 0 <= p < i ==> parity[p] == Shard(data, k, shardLen, k + p)
      {
        var out := EncodeRow(data, shardLen, encodingMatrix[k + i]);
        assert out == Shard(data, k, shardLen, k + i);
        parity := parity + [out];
      }
      return Ok(parity);
    }

    /** One parity shard: the row's combination of the data shards, accumulated in a fresh buffer. */
    method EncodeRow(data: seq<seq<byte>>, shardLen: nat, row: Vec) returns (s: seq<byte>)
      requires Valid() && IsData(data, k, shardLen) && |row| == k
      ensures |s| == shardLen && forall b :: 0 <= b < shardLen ==> s[b] == Dot(row, Slice(data, k, b), k)
    {
      hide Times, Add;
      var out := new byte[shardLen](_ => 0);
      for j := 0 to k
        invariant forall b :: 0 <= b < shardLen ==> out[b] == Dot(row, Slice(data, k, b), j)
      {
        var ok := MulAddRow(t, row[j], data[j], out);
      }
      s := out[..];
    }
  
    /** Exactly what comes of any slots. The three checks; then the data slots as they are, if none is
        empty; then an error, if a length escaped the check; and otherwise the only data whose code word
        has the first k present shards - which is the encoded data, if the slots come from it. */
    method Reconstruct(shards: Shards) returns (r: Result<seq<seq<byte>>>, ghost swapped: bool)
      requires Valid()
      ensures |shards| != k + m ==> r == Err(WrongShardCount)
      ensures |shards| == k + m && MixedLengths(shards) ==> r == Err(UnequalLength)
      ensures |shards| == k + m && !MixedLengths(shards) && |Survivors(shards)| < k ==> r == Err(TooFewShards)
      ensures |shards| == k + m && !MixedLengths(shards) && |Survivors(shards)| >= k ==>
                if AllData(shards, k) then r == Ok(DataSlots(shards, k))
                else if !SameLengths(shards) then r == Err(RowLengthMismatch)
                else r.Ok? && Fits(shards, r.value, k)
      ensures forall data, len :: |shards| == k + m && |Survivors(shards)| >= k && Agrees(shards, data, k, len)
                ==> r == Ok(data)
      // and when the inversion takes the swap branch
      ensures swapped <==> |shards| == k + m && !MixedLengths(shards) && |Survivors(shards)| >= k && HasGap(shards, k)
    {
      AgreesSameLengths(shards, k);
      hide Times, Add, Dot, TrivialKernel, Agrees, LeftInverse, MixedLengths, SameLengths, Fits, HasGap;
      swapped := false;
      if |shards| != k + m {
        r := Err(WrongShardCount);
        return;
      }
      var uniform, presentIdx, shardLen := Survey(shards);
      if !uniform {
        r := Err(UnequalLength);
        return;
      }
      PresentCount(shards);
      if |presentIdx| < k {
        r := Err(TooFewShards);
        return;
      }
      var needsRecovery := false;
      for i := 0 to k
        invariant !needsRecovery ==> forall j :: 0 <= j < i ==> shards[j].Some?
      {
        if shards[i].None? {
          needsRecovery := true;
          break;
        }
      }
      if !needsRecovery {
        r := Ok(DataSlots(shards, k));
        NoGapWhenComplete(shards, k);
        forall data, len | Agrees(shards, data, k, len) ensures r == Ok(data) {
          SystematicPart(shards, data, k, len, r.value);
        }
        return;
      }
      r, swapped := Recover(shards, presentIdx[..k], shardLen);
    }

    /** Inverts the rows of the chosen shards and recomputes the missing data shards. */
    method Recover(shards: Shards, chosen: seq<int>, shardLen: nat) returns (r: Result<seq<seq<byte>>>,
                   ghost swapped: bool)
      requires Valid() && |shards| == k + m && !AllData(shards, k)
      requires |PresentIndices(shards, |shards|)| >= k && chosen == Chosen(shards, k)
      requires SameLengths(shards) ==>
                 forall i :: 0 <= i < |shards| && shards[i].Some? ==> |shards[i].value| == shardLen
      requires !SameLengths(shards) ==> |shards[chosen[0]].value| != shardLen
      ensures if SameLengths(shards) then r.Ok? && Fits(shards, r.value, k) else r == Err(RowLengthMismatch)
      ensures swapped <==> HasGap(shards, k)
      ensures forall data, len :: Agrees(shards, data, k, len) ==> r == Ok(data)
    {
      hide Times, Add, Dot, TrivialKernel, Agrees, LeftInverse, Shard, SameLengths, EncodingRow, Recovered, Fits,
           HasGap, LeadingBlocks;
      var sub := seq(k, i requires 0 <= i < k => encodingMatrix[chosen[i]]);
      assert sub == ChosenRows(chosen, k, m);
      ChosenRowsIndependent(chosen, k, m);
      var inverted;
      inverted, swapped := InvertMatrix(t, sub);
      SwapWhenShardMissing(shards, k, m);
      InverseSize(inverted.value, sub);
      forall j, i | 0 <= j < k && shards[j].None? && 0 <= i < k ensures inverted.value[j][i] != 0 {
        NoZeroCoefficient(chosen, k, m, inverted.value, j, i);
      }
      AgreesSameLengths(shards, k);
      r := RecoverAll(inverted.value, shards, chosen, shardLen);
      if r.Ok? {
        RecoveredFits(inverted.value, shards, chosen, r.value, k, m, shardLen);
        forall data, len | Agrees(shards, data, k, len) ensures r.value == data {
          AgreesFits(shards, data, k, m, len);
          FitsIsUnique(shards, data, r.value, k, m);
        }
      }
    }

    /** Keeps the present data shards and recomputes the missing ones, in order. */
    method RecoverAll(inverse: Matrix, shards: Shards, chosen: seq<int>,
                      shardLen: nat) returns (r: Result<seq<seq<byte>>>)
      requires Valid() && |shards| == k + m && Square(inverse, k) && !AllData(shards, k)
      requires RowChoice(chosen, k, m) && forall i :: 0 <= i < k ==> shards[chosen[i]].Some?
      requires forall j, i :: 0 <= j < k && shards[j].None? && 0 <= i < k ==> inverse[j][i] != 0
      requires SameLengths(shards) ==>
                 forall i :: 0 <= i < |shards| && shards[i].Some? ==> |shards[i].value| == shardLen
      requires !SameLengths(shards) ==> |shards[chosen[0]].value| != shardLen
      ensures r.Ok? <==> SameLengths(shards)
      ensures r.Err? ==> r.error == RowLengthMismatch
      ensures r.Ok? ==> |r.value| == k && forall j :: 0 <= j < k && shards[j].Some? ==> r.value[j] == shards[j].value
      ensures r.Ok? ==> Recovered(r.value, inverse, shards, Received(shards, chosen, k), k, shardLen)
    {
      hide Times, Add, Dot, SameLengths;
      ghost var received := Received(shards, chosen, k);
      var out: seq<seq<byte>> := [];
      for j := 0 to k
        invariant |out| == j
        invariant forall i :: 0 <= i < j && shards[i].Some? ==> out[i] == shards[i].value
        invariant SameLengths(shards) || forall i :: 0 <= i < j ==> shards[i].Some?
        invariant SameLengths(shards) ==> Recovered(out, inverse, shards, received, k, shardLen)
      {
        if shards[j].Some? {
          out := out + [shards[j].value];
        } else {
          var buf := RecoverShard(inverse[j], shards, chosen, shardLen);
          if buf.Err? { return Err(buf.error); }
          out := out + [buf.value];
        }
      }
      r := Ok(out);
    }

    /** The combination of the chosen shards with the coefficients of one row of the inverse. */
    method RecoverShard(row: Vec, shards: Shards, chosen: seq<int>, shardLen: nat) returns (r: Result<seq<byte>>)
      requires Valid() && |row| == k && |shards| == k + m
      requires RowChoice(chosen, k, m) && forall i :: 0 <= i < k ==> shards[chosen[i]].Some?
      ensures r.Ok? <==> forall i :: 0 <= i < k && row[i] != 0 ==> |shards[chosen[i]].value| == shardLen
      ensures r.Err? ==> r.error == RowLengthMismatch
      ensures r.Ok? ==> |r.value| == shardLen
      ensures r.Ok? && IsData(Received(shards, chosen, k), k, shardLen) ==>
                forall b :: 0 <= b < shardLen ==> r.value[b] == Dot(row, Slice(Received(shards, chosen, k), k, b), k)
    {
      hide Times, Add;
      ghost var received := Received(shards, chosen, k);
      var buf := new byte[shardLen](_ => 0);
      for i := 0 to k
        invariant forall j :: 0 <= j < i && row[j] != 0 ==> |received[j]| == shardLen
        invariant IsData(received, k, shardLen) ==>
                    forall b :: 0 <= b < shardLen ==> buf[b] == Dot(row, Slice(received, k, b), i)
      {
        var coef := row[i];
        if coef == 0 {
          forall b | 0 <= b < shardLen && IsData(received, k, shardLen)
            ensures Dot(row, Slice(received, k, b), i + 1) == Dot(row, Slice(received, k, b), i)
          {
            TimesLaws(received[i][b], 0, 0);
            AddLaws(Dot(row, Slice(received, k, b), i), 0, 0);
          }
        } else {
          var ok := MulAddRow(t, coef, shards[chosen[i]].value, buf);
          if !ok { return Err(RowLengthMismatch); }
        }
      }
      r := Ok(buf[..]);
    }
  }

  // ---------- why reconstruction is exact ----------

  ghost predicate SameLengths(shards: Shards) {
    forall i, j :: 0 <= i < |shards| && 0 <= j < |shards| && shards[i].Some? && shards[j].Some?
      ==> |shards[i].value| == |shards[j].value|
  }

  ghost predicate AllData(shards: Shards, k: nat)
    requires k <= |shards|
  {
    forall j :: 0 <= j < k ==> shards[j].Some?
  }

  /** Some data shard is missing below one that is present. */
  ghost predicate HasGap(shards: Shards, k: nat)
    requires k <= |shards|
  {
    exists y: nat, x: nat :: y < x < k && shards[y].None? && shards[x].Some?
  }

  lemma NoGapWhenComplete(shards: Shards, k: nat)
    requires k <= |shards| && AllData(shards, k)
    ensures !HasGap(shards, k)
  {
  }

  function DataSlots(shards: Shards, k: nat): (data: seq<seq<byte>>)
    requires k <= |shards| && AllData(shards, k)
    ensures |data| == k
  {
    seq(k, j requires 0 <= j < k => shards[j].value)
  }

  /** The code word of `data` has the first k present shards. */
  ghost predicate Fits(shards: Shards, data: seq<seq<byte>>, k: nat) {
    k <= 256 && |shards| <= 256 && |PresentIndices(shards, |shards|)| >= k
    && exists len :: HasShards(shards, Chosen(shards, k), data, k, len)
  }

  /** The chosen slots hold the shards of `data` that belong there. */
  ghost predicate HasShards(shards: Shards, chosen: seq<int>, data: seq<seq<byte>>, k: nat, len: nat)
    requires |shards| <= 256 && forall i :: 0 <= i < |chosen| ==> 0 <= chosen[i] < |shards| && shards[chosen[i]].Some?
  {
    && k <= 256 && IsData(data, k, len)
    && forall i :: 0 <= i < |chosen| ==> shards[chosen[i]].value == Shard(data, k, len, chosen[i])
  }

  function PresentIndices(shards: Shards, n: nat): (present: seq<int>)
    requires n <= |shards|
    ensures forall p :: 0 <= p < |present| ==> 0 <= present[p] < n && shards[present[p]].Some?
    ensures forall i :: 0 <= i < n && shards[i].Some? ==> i in present
  {
    if n == 0 then []
    else PresentIndices(shards, n - 1) + if shards[n - 1].Some? then [n - 1] else []
  }

  lemma {:induction false} PresentAscending(shards: Shards, n: nat)
    requires n <= |shards|
    ensures Ascending(PresentIndices(shards, n)) && Distinct(PresentIndices(shards, n))
  {
    if n > 0 {
      PresentAscending(shards, n - 1);
    }
  }

  /** The shards that reconstruction starts from: the first k present ones. */
  function Chosen(shards: Shards, k: nat): (chosen: seq<int>)
    requires k <= |PresentIndices(shards, |shards|)|
    ensures |chosen| == k && Ascending(chosen) && Distinct(chosen)
    ensures forall i :: 0 <= i < k ==> 0 <= chosen[i] < |shards| && shards[chosen[i]].Some?
  {
    PresentAscending(shards, |shards|);
    PresentIndices(shards, |shards|)[..k]
  }

  lemma PresentCount(shards: Shards)
    ensures |PresentIndices(shards, |shards|)| == |Survivors(shards)|
  {
    var present := PresentIndices(shards, |shards|);
    PresentAscending(shards, |shards|);
    DistinctSize(present);
    assert Elements(present) == Survivors(shards);
  }

  /** The indices of the present shards, and their common length. */
  method Survey(shards: Shards) returns (uniform: bool, presentIdx: seq<int>, shardLen: nat)
    ensures uniform <==> !MixedLengths(shards)
    ensures uniform ==> presentIdx == PresentIndices(shards, |shards|)
    ensures uniform && SameLengths(shards) ==>
              forall i :: 0 <= i < |shards| && shards[i].Some? ==> |shards[i].value| == shardLen
    ensures uniform && !SameLengths(shards) ==> presentIdx != [] && |shards[presentIdx[0]].value| != shardLen
  {
    hide MixedLengths, SameLengths, Lengths, Ascending, Distinct;
    LengthsStep(shards, 0, 0, 0);
    presentIdx, shardLen := [], 0;
    ghost var first := 0;
    for i := 0 to |shards|
      invariant presentIdx == PresentIndices(shards, i)
      invariant Lengths(shards, i, first, shardLen)
    {
      LengthsStep(shards, i, first, shardLen);
      if shards[i].Some? {
        presentIdx := presentIdx + [i];
        if shardLen == 0 {
          shardLen := |shards[i].value|;
          first := i;
        } else if |shards[i].value| != shardLen {
          uniform := false;
          return;
        }
      }
    }
    LengthsMean(shards, first, shardLen);
    uniform := true;
  }

  /** Up to slot i, shards have no bytes before `first` and `shardLen` bytes from there on. */
  ghost predicate Lengths(shards: Shards, i: nat, first: nat, shardLen: nat)
    requires i <= |shards|
  {
    && (shardLen != 0 ==> first < i && shards[first].Some? && |shards[first].value| == shardLen)
    && forall j :: 0 <= j < i && shards[j].Some? ==>
         |shards[j].value| == if shardLen != 0 && first <= j then shardLen else 0
  }

  lemma LengthsStep(shards: Shards, i: nat, first: nat, shardLen: nat)
    requires i <= |shards|
    ensures Lengths(shards, 0, 0, 0)
    ensures i < |shards| && Lengths(shards, i, first, shardLen) ==>
              if shards[i].None? then Lengths(shards, i + 1, first, shardLen)
              else if shardLen == 0 then Lengths(shards, i + 1, i, |shards[i].value|)
              else if |shards[i].value| == shardLen then Lengths(shards, i + 1, first, shardLen)
              else MixedLengths(shards)
  {
    if i < |shards| && Lengths(shards, i, first, shardLen) && shards[i].Some? && 0 < shardLen != |shards[i].value| {
      assert first < i && shards[first].Some? && shards[i].Some?;
    }
  }

  lemma LengthsMean(shards: Shards, first: nat, shardLen: nat)
    requires Lengths(shards, |shards|, first, shardLen)
    ensures !MixedLengths(shards)
    ensures SameLengths(shards) ==> forall i :: 0 <= i < |shards| && shards[i].Some? ==> |shards[i].value| == shardLen
    ensures var present := PresentIndices(shards, |shards|);
            !SameLengths(shards) ==> present != [] && |shards[present[0]].value| != shardLen
  {
    if !SameLengths(shards) {
      PresentAscending(shards, |shards|);
      var i :| 0 <= i < first && shards[i].Some?;
      var present := PresentIndices(shards, |shards|);
      assert i in present;
      assert present[0] <= i;
    }
  }

  lemma SystematicPart(shards: Shards, data: seq<seq<byte>>, k: nat, len: nat, out: seq<seq<byte>>)
    requires k <= |shards| && Agrees(shards, data, k, len) && |out| == k
    requires forall j :: 0 <= j < k ==> shards[j].Some? && out[j] == shards[j].value
    ensures out == data
  {
    hide Shard;
    forall j | 0 <= j < k ensures out[j] == data[j] {
      DataShard(data, k, len, j);
    }
  }

  ghost function Received(shards: Shards, chosen: seq<int>, k: nat): (y: seq<seq<byte>>)
    requires k <= |chosen| && forall i :: 0 <= i < k ==> 0 <= chosen[i] < |shards| && shards[chosen[i]].Some?
    ensures |y| == k && forall i :: 0 <= i < k ==> y[i] == shards[chosen[i]].value
  {
    seq(k, i requires 0 <= i < k => shards[chosen[i]].value)
  }

  /** Every recomputed shard is its row of the inverse applied to the received shards. */
  ghost predicate Recovered(out: seq<seq<byte>>, inverse: Matrix, shards: Shards, received: seq<seq<byte>>, k: nat,
                            len: nat)
    requires |out| <= k <= |shards| && Square(inverse, k)
  {
    && IsData(received, k, len)
    && forall i :: 0 <= i < |out| && shards[i].None? ==>
         |out[i]| == len && forall b :: 0 <= b < len ==> out[i][b] == Dot(inverse[i], Slice(received, k, b), k)
  }

  lemma InverseSize(l: Matrix, m: Matrix)
    requires LeftInverse(l, m)
    ensures Square(l, |m|)
  {
  }

  lemma AgreesSameLengths(shards: Shards, k: nat)
    ensures forall data, len :: Agrees(shards, data, k, len) ==> SameLengths(shards)
    ensures SameLengths(shards) ==> !MixedLengths(shards)
  {
  }

  lemma {:induction false} PresentPrefix(shards: Shards, n: nat, m: nat)
    requires n <= m <= |shards|
    ensures PresentIndices(shards, n) <= PresentIndices(shards, m) && |PresentIndices(shards, n)| <= n
    decreases m
  {
    if n < m {
      PresentPrefix(shards, n, m - 1);
    } else if n > 0 {
      PresentPrefix(shards, n - 1, n - 1);
    }
  }

  /** The present data shards are always among the chosen ones. */
  lemma PresentIsChosen(shards: Shards, k: nat, j: nat) returns (i: nat)
    requires j < k <= |PresentIndices(shards, |shards|)| && k <= |shards| && shards[j].Some?
    ensures i < k && PresentIndices(shards, |shards|)[i] == j
  {
    PresentPrefix(shards, k, |shards|);
    assert j in PresentIndices(shards, k);
    i :| 0 <= i < |PresentIndices(shards, k)| && PresentIndices(shards, k)[i] == j;
  }

  /** What is recomputed is the inverse applied to what was received, also where it was received. */
  lemma RecoveredSlice(inverse: Matrix, shards: Shards, chosen: seq<int>, out: seq<seq<byte>>, k: nat, m: nat,
                       len: nat, b: nat)
    requires Sizes(k, m) && |shards| == k + m && k <= |PresentIndices(shards, |shards|)| && chosen == Chosen(shards, k)
    requires Square(inverse, k) && LeftInverse(inverse, ChosenRows(chosen, k, m))
    requires IsData(out, k, len) && forall i :: 0 <= i < k && shards[i].Some? ==> out[i] == shards[i].value
    requires Recovered(out, inverse, shards, Received(shards, chosen, k), k, len) && b < len
    ensures Slice(out, k, b) == Apply(inverse, Slice(Received(shards, chosen, k), k, b))
    ensures Apply(ChosenRows(chosen, k, m), Slice(out, k, b)) == Slice(Received(shards, chosen, k), k, b)
  {
    hide Dot, LeftInverse, EncodingRow, TrivialKernel;
    var sub, y := ChosenRows(chosen, k, m), Slice(Received(shards, chosen, k), k, b);
    var x := Apply(inverse, y);
    ChosenRowsIndependent(chosen, k, m);
    LeftInverseIsRight(inverse, sub, y);
    forall j | 0 <= j < k ensures out[j][b] == x[j] {
      if shards[j].Some? {
        var i := PresentIsChosen(shards, k, j);
        UnitRowDot(j, k, x);
        assert Apply(sub, x)[i] == y[i];
      }
    }
    assert Slice(out, k, b) == x;
  }

  lemma RecoveredLengths(inverse: Matrix, shards: Shards, chosen: seq<int>, out: seq<seq<byte>>, k: nat, len: nat)
    requires k <= |shards| && k <= |PresentIndices(shards, |shards|)| && chosen == Chosen(shards, k)
    requires |out| == k && forall i :: 0 <= i < k && shards[i].Some? ==> out[i] == shards[i].value
    requires Square(inverse, k) && Recovered(out, inverse, shards, Received(shards, chosen, k), k, len)
    ensures IsData(out, k, len)
  {
    hide Dot;
    forall j | 0 <= j < k ensures |out[j]| == len {
      if shards[j].Some? {
        var i := PresentIsChosen(shards, k, j);
        assert Received(shards, chosen, k)[i] == out[j];
      }
    }
  }

  /** The recomputed data has the chosen shards in its code word. */
  lemma RecoveredFits(inverse: Matrix, shards: Shards, chosen: seq<int>, out: seq<seq<byte>>, k: nat, m: nat, len: nat)
    requires Sizes(k, m) && |shards| == k + m && k <= |PresentIndices(shards, |shards|)| && chosen == Chosen(shards, k)
    requires Square(inverse, k) && LeftInverse(inverse, ChosenRows(chosen, k, m))
    requires |out| == k && forall i :: 0 <= i < k && shards[i].Some? ==> out[i] == shards[i].value
    requires Recovered(out, inverse, shards, Received(shards, chosen, k), k, len)
    ensures Fits(shards, out, k)
  {
    RecoveredLengths(inverse, shards, chosen, out, k, len);
    hide Shard, LeftInverse, Recovered, PresentIndices;
    forall i | 0 <= i < k ensures shards[chosen[i]].value == Shard(out, k, len, chosen[i]) {
      RecoveredShard(inverse, shards, chosen, out, k, m, len, i);
    }
    assert HasShards(shards, chosen, out, k, len);
  }

  lemma RecoveredShard(inverse: Matrix, shards: Shards, chosen: seq<int>, out: seq<seq<byte>>, k: nat, m: nat,
                       len: nat, i: nat)
    requires Sizes(k, m) && |shards| == k + m && k <= |PresentIndices(shards, |shards|)| && chosen == Chosen(shards, k)
    requires Square(inverse, k) && LeftInverse(inverse, ChosenRows(chosen, k, m))
    requires IsData(out, k, len) && forall i :: 0 <= i < k && shards[i].Some? ==> out[i] == shards[i].value
    requires Recovered(out, inverse, shards, Received(shards, chosen, k), k, len) && i < k
    ensures shards[chosen[i]].value == Shard(out, k, len, chosen[i])
  {
    hide Dot, LeftInverse, EncodingRow, PresentIndices;
    var received := Received(shards, chosen, k);
    forall b | 0 <= b < len ensures received[i][b] == Shard(out, k, len, chosen[i])[b] {
      RecoveredSlice(inverse, shards, chosen, out, k, m, len, b);
      assert Apply(ChosenRows(chosen, k, m), Slice(out, k, b))[i] == Slice(received, k, b)[i];
    }
    assert received[i] == Shard(out, k, len, chosen[i]);
  }

  /** Any k shards belong to the code word of at most one data. */
  lemma FitsIsUnique(shards: Shards, data: seq<seq<byte>>, other: seq<seq<byte>>, k: nat, m: nat)
    requires Sizes(k, m) && |shards| == k + m && Fits(shards, data, k) && Fits(shards, other, k)
    ensures data == other
  {
    hide Shard, TrivialKernel;
    var chosen := Chosen(shards, k);
    var len :| HasShards(shards, chosen, data, k, len);
    var len' :| HasShards(shards, chosen, other, k, len');
    assert len == |shards[chosen[0]].value| == len';
    ChosenRowsIndependent(chosen, k, m);
    hide PresentIndices, HasShards;
    SameBytes(shards, chosen, data, other, k, m, len);
  }

  lemma SameBytes(shards: Shards, chosen: seq<int>, data: seq<seq<byte>>, other: seq<seq<byte>>, k: nat, m: nat,
                  len: nat)
    requires Sizes(k, m) && RowChoice(chosen, k, m) && IsData(data, k, len) && IsData(other, k, len)
    requires forall i :: 0 <= i < k ==> Shard(data, k, len, chosen[i]) == Shard(other, k, len, chosen[i])
    requires TrivialKernel(ChosenRows(chosen, k, m))
    ensures data == other
  {
    hide Shard, TrivialKernel;
    forall j | 0 <= j < k ensures data[j] == other[j] {
      forall b | 0 <= b < len ensures data[j][b] == other[j][b] {
        SameSlice(shards, chosen, data, other, k, m, len, b);
        assert Slice(data, k, b)[j] == Slice(other, k, b)[j];
      }
    }
  }

  lemma SameSlice(shards: Shards, chosen: seq<int>, data: seq<seq<byte>>, other: seq<seq<byte>>, k: nat, m: nat,
                  len: nat, b: nat)
    requires Sizes(k, m) && RowChoice(chosen, k, m) && IsData(data, k, len) && IsData(other, k, len) && b < len
    requires forall i :: 0 <= i < k ==> Shard(data, k, len, chosen[i]) == Shard(other, k, len, chosen[i])
    requires TrivialKernel(ChosenRows(chosen, k, m))
    ensures Slice(data, k, b) == Slice(other, k, b)
  {
    hide Dot, EncodingRow, TrivialKernel;
    var sub, x, y := ChosenRows(chosen, k, m), Slice(data, k, b), Slice(other, k, b);
    forall i | 0 <= i < k ensures Apply(sub, x)[i] == Apply(sub, y)[i] {
      assert Shard(data, k, len, chosen[i])[b] == Shard(other, k, len, chosen[i])[b];
    }
    NonsingularIsInjective(sub, x, y);
  }

  lemma AgreesFits(shards: Shards, data: seq<seq<byte>>, k: nat, m: nat, len: nat)
    requires Sizes(k, m) && |shards| == k + m && Agrees(shards, data, k, len) && k <= |PresentIndices(shards, |shards|)|
    ensures Fits(shards, data, k)
  {
    hide Shard;
    assert HasShards(shards, Chosen(shards, k), data, k, len);
  }

  /** Reconstruction has to swap rows exactly when some data shard is missing below one that is present. */
  lemma SwapWhenShardMissing(shards: Shards, k: nat, m: nat)
    requires Sizes(k, m) && |shards| == k + m && k <= |PresentIndices(shards, |shards|)|
    ensures LeadingBlocks(ChosenRows(Chosen(shards, k), k, m))
       <==> !HasGap(shards, k)
  {
    var chosen := Chosen(shards, k);
    assert RowChoice(chosen, k, m) && Ascending(chosen);
    SwapIsNeeded(chosen, k, m);
    hide *;
    forall x: nat | x < k ensures x in chosen <==> shards[x].Some? {
      ChosenIffPresent(shards, k, x);
    }
    GapMeans(shards, chosen, k);
  }

  lemma ChosenIffPresent(shards: Shards, k: nat, x: nat)
    requires x < k <= |PresentIndices(shards, |shards|)| && k <= |shards|
    ensures x in Chosen(shards, k) <==> shards[x].Some?
  {
    var chosen := Chosen(shards, k);
    if shards[x].Some? {
      var i := PresentIsChosen(shards, k, x);
      assert chosen[i] == x;
    }
  }

  lemma GapMeans(shards: Shards, chosen: seq<int>, k: nat)
    requires k <= |shards| && forall x: nat :: x < k ==> (x in chosen <==> shards[x].Some?)
    ensures Gap(chosen, k) <==> HasGap(shards, k)
  {
    if y: nat, x: nat :| y < x < k && shards[y].None? && shards[x].Some? {
      assert y !in chosen && x in chosen;
    }
  }
}
