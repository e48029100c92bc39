/** The encoding matrix - identity rows above a Cauchy matrix - and the theorem that any k of its
    rows have only the zero vector in their kernel. */
module Cauchy {
  import opened Bits
  import opened GF256
  import opened LinearAlgebra

  // ---------- Cauchy systems ----------

  /** 1 / (x + y). */
  ghost function Entry(x: byte, y: byte): byte
    requires x != y
  {
    AddCancel(x, y);
    Inverse(Add(x, y))
  }

  lemma EntryLaw(x: byte, y: byte)
    requires x != y
    ensures Times(Add(x, y), Entry(x, y)) == 1 && Entry(x, y) != 0
  {
    hide Times, Add;
    AddCancel(x, y);
  }

  /** The sum of v[j] / (x + ys[j]) over the first n columns. */
  ghost function CauchySum(x: byte, ys: seq<byte>, v: Vec, n: nat): byte
    requires n <= |ys| && n <= |v| && forall j :: 0 <= j < |ys| ==> ys[j] != x
  {
    if n == 0 then 0 else Add(CauchySum(x, ys, v, n - 1), Times(v[n - 1], Entry(x, ys[n - 1])))
  }

  /** Eliminating column y0 with row w: the coefficients v(y + y0) / (w + y). */
  ghost function Eliminated(w: byte, y0: byte, ys: seq<byte>, v: Vec): (v': Vec)
    requires |ys| == |v| && forall j :: 0 <= j < |ys| ==> ys[j] != w
    ensures |v'| == |v|
  {
    seq(|v|, j requires 0 <= j < |v| => Times(Times(v[j], Add(ys[j], y0)), Entry(w, ys[j])))
  }

  /** v/(x+y) (x+y0) + v/(w+y) (w+y0) = (x+w) v (y+y0)/(w+y) / (x+y), written with
      s = x+y, t = w+y, u = y+y0 and the reciprocals a of s, b of t. */
  lemma TermIdentity(v: byte, s: byte, t: byte, u: byte, a: byte, b: byte)
    requires Times(s, a) == 1 && Times(t, b) == 1
    ensures Add(Times(Add(s, u), Times(v, a)), Times(Add(t, u), Times(v, b)))
         == Times(Add(s, t), Times(Times(Times(v, u), b), a))
  {
    hide Times, Add, Entry;
    var vu := Times(v, u);
    SideTerm(v, s, u, a);
    SideTerm(v, t, u, b);
    // (v + vua) + (v + vub) = vu(a + b)
    AddLaws(v, Times(vu, a), 0);
    AddSwap(v, Times(vu, a), v, Times(vu, b));
    AddLaws(v, v, v);
    AddLaws(Add(Times(vu, a), Times(vu, b)), 0, 0);
    // (s + t) vub a = vub + vua
    TimesLaws(Times(vu, b), a, 0);
    TimesLaws(s, t, Times(Times(vu, b), a));
    TimesLaws(Times(vu, b), a, s);
    TimesLaws(a, s, 0);
    TimesLaws(s, Times(Times(vu, b), a), 0);
    TimesLaws(Times(vu, b), 1, 1);
    TimesLaws(Times(vu, b), a, t);
    TimesLaws(t, Times(Times(vu, b), a), 0);
    TimesLaws(vu, b, a);
    TimesLaws(a, b, t);
    TimesLaws(vu, Times(a, b), t);
    TimesLaws(b, a, 0);
    TimesLaws(b, t, 0);
    TimesLaws(a, 1, 1);
    TimesLaws(vu, Times(b, a), t);
    AddLaws(Times(vu, b), Times(vu, a), 0);
  }

  lemma SideTerm(v: byte, s: byte, u: byte, a: byte)
    requires Times(s, a) == 1
    ensures Times(Add(s, u), Times(v, a)) == Add(v, Times(Times(v, u), a))
  {
    hide Times, Add, Entry;
    TimesLaws(s, u, Times(v, a));
    TimesLaws(v, a, 0);
    TimesLaws(s, a, v);
    TimesLaws(v, 1, 1);
    TimesLaws(u, v, a);
    TimesLaws(v, u, 0);
  }

  /** (x + w) times the eliminated sum at x combines the original sums at x and at w. */
  lemma {:induction false} EliminationSum(x: byte, w: byte, y0: byte, ys: seq<byte>, v: Vec, n: nat)
    requires n <= |ys| == |v| && forall j :: 0 <= j < |ys| ==> ys[j] != x && ys[j] != w
    ensures Add(Times(Add(x, y0), CauchySum(x, ys, v, n)), Times(Add(w, y0), CauchySum(w, ys, v, n)))
         == Times(Add(x, w), CauchySum(x, ys, Eliminated(w, y0, ys, v), n))
  {
    hide Times, Add, Entry;
    if n == 0 {
      TimesLaws(Add(x, y0), 0, 0);
      TimesLaws(Add(w, y0), 0, 0);
      TimesLaws(Add(x, w), 0, 0);
      AddLaws(0, 0, 0);
    } else {
      EliminationSum(x, w, y0, ys, v, n - 1);
      var y, z, v' := ys[n - 1], v[n - 1], Eliminated(w, y0, ys, v);
      ColumnIdentity(x, w, y0, y, z);
      CombineSums(Add(x, y0), Add(w, y0), Add(x, w),
                  CauchySum(x, ys, v, n - 1), CauchySum(w, ys, v, n - 1), CauchySum(x, ys, v', n - 1),
                  Times(z, Entry(x, y)), Times(z, Entry(w, y)), Times(v'[n - 1], Entry(x, y)));
    }
  }

  lemma ColumnIdentity(x: byte, w: byte, y0: byte, y: byte, z: byte)
    requires x != y && w != y
    ensures Add(Times(Add(x, y0), Times(z, Entry(x, y))), Times(Add(w, y0), Times(z, Entry(w, y))))
         == Times(Add(x, w), Times(Times(Times(z, Add(y, y0)), Entry(w, y)), Entry(x, y)))
  {
    hide Times, Add, Entry;
    ShiftedSum(x, y, y0);
    ShiftedSum(w, y, y0);
    ShiftedSum(x, y, w);
    AddLaws(y, w, w);
    EntryLaw(x, y);
    EntryLaw(w, y);
    TermIdentity(z, Add(x, y), Add(w, y), Add(y, y0), Entry(x, y), Entry(w, y));
  }

  lemma CombineSums(a: byte, b: byte, c: byte, r: byte, s: byte, t: byte, r': byte, s': byte, t': byte)
    requires Add(Times(a, r), Times(b, s)) == Times(c, t)
    requires Add(Times(a, r'), Times(b, s')) == Times(c, t')
    ensures Add(Times(a, Add(r, r')), Times(b, Add(s, s'))) == Times(c, Add(t, t'))
  {
    hide Times, Add, Entry;
    TimesLaws(a, r, r');
    TimesLaws(b, s, s');
    TimesLaws(c, t, t');
    AddSwap(Times(a, r), Times(a, r'), Times(b, s), Times(b, s'));
  }

  lemma ShiftedSum(x: byte, y: byte, z: byte)
    ensures Add(Add(x, y), Add(y, z)) == Add(x, z)
  {
    hide Add;
    AddLaws(x, y, Add(y, z));
    AddLaws(y, y, z);
    AddLaws(z, 0, 0);
  }

  /** A Cauchy system has only the zero solution. Row w = xs[n-1] eliminates column
      y0 = ys[n-1] and leaves a Cauchy system one smaller. */
  lemma {:induction false} CauchyKernel(xs: seq<byte>, ys: seq<byte>, v: Vec, n: nat)
    requires n <= |xs| && n <= |ys| == |v|
    requires Distinct(xs) && Distinct(ys)
    requires forall j, p :: 0 <= j < |ys| && 0 <= p < |xs| ==> ys[j] != xs[p]
    requires forall p :: 0 <= p < n ==> CauchySum(xs[p], ys, v, n) == 0
    ensures forall j :: 0 <= j < n ==> v[j] == 0
    decreases n
  {
    hide Times, Add, Entry, CauchySum;
    if n > 0 {
      var w, y0 := xs[n - 1], ys[n - 1];
      var v' := Eliminated(w, y0, ys, v);
      forall p | 0 <= p < n - 1 ensures CauchySum(xs[p], ys, v', n - 1) == 0 {
        EliminatedRow(xs[p], w, ys, v, n);
      }
      CauchyKernel(xs, ys, v', n - 1);
      forall j | 0 <= j < n - 1 ensures v[j] == 0 {
        assert v'[j] == 0;
        EliminatedZero(v[j], ys[j], y0, w);
      }
      LastZero(w, ys, v, n);
    }
  }

  lemma EliminatedZero(v: byte, y: byte, y0: byte, w: byte)
    requires y != y0 && y != w && Times(Times(v, Add(y, y0)), Entry(w, y)) == 0
    ensures v == 0
  {
    hide Times, Add, Entry;
    AddCancel(y, y0);
    EntryLaw(w, y);
    NoZeroDivisors(Times(v, Add(y, y0)), Entry(w, y));
    NoZeroDivisors(v, Add(y, y0));
  }

  lemma LastZero(w: byte, ys: seq<byte>, v: Vec, n: nat)
    requires 0 < n <= |ys| == |v| && forall j :: 0 <= j < |ys| ==> ys[j] != w
    requires forall j :: 0 <= j < n - 1 ==> v[j] == 0
    requires CauchySum(w, ys, v, n) == 0
    ensures v[n - 1] == 0
  {
    hide Times, Add, Entry;
    ZeroSum(w, ys, v, n - 1);
    AddLaws(Times(v[n - 1], Entry(w, ys[n - 1])), 0, 0);
    EntryLaw(w, ys[n - 1]);
    NoZeroDivisors(v[n - 1], Entry(w, ys[n - 1]));
  }

  lemma EliminatedRow(x: byte, w: byte, ys: seq<byte>, v: Vec, n: nat)
    requires 0 < n <= |ys| == |v| && forall j :: 0 <= j < |ys| ==> ys[j] != x && ys[j] != w
    requires x != w && CauchySum(x, ys, v, n) == 0 && CauchySum(w, ys, v, n) == 0
    ensures CauchySum(x, ys, Eliminated(w, ys[n - 1], ys, v), n - 1) == 0
  {
    hide Times, Add, Entry;
    var y0 := ys[n - 1];
    var v' := Eliminated(w, y0, ys, v);
    EliminationSum(x, w, y0, ys, v, n);
    TimesLaws(Add(x, y0), 0, 0);
    TimesLaws(Add(w, y0), 0, 0);
    AddLaws(0, 0, 0);
    NoZeroDivisors(Add(x, w), CauchySum(x, ys, v', n));
    AddCancel(x, w);
    AddLaws(y0, y0, y0);
    TimesLaws(v[n - 1], 0, 0);
    TimesLaws(Entry(w, y0), 0, 0);
    TimesLaws(Entry(x, y0), 0, 0);
    AddLaws(CauchySum(x, ys, v', n - 1), 0, 0);
  }

  lemma {:induction false} ZeroSum(x: byte, ys: seq<byte>, v: Vec, n: nat)
    requires n <= |ys| && n <= |v| && forall j :: 0 <= j < |ys| ==> ys[j] != x
    requires forall j :: 0 <= j < n ==> v[j] == 0
    ensures CauchySum(x, ys, v, n) == 0
  {
    hide Times, Add, Entry;
    AddLaws(0, 0, 0);
    if n > 0 {
      ZeroSum(x, ys, v, n - 1);
      TimesLaws(Entry(x, ys[n - 1]), 0, 0);
    }
  }

  // ---------- the encoding matrix ----------

  /** Row i of the encoding matrix: a unit row for a data shard, a Cauchy row for a parity shard. */
  ghost function EncodingRow(i: byte, k: nat): (row: Vec)
    requires k <= 256
    ensures |row| == k
  {
    seq(k, j requires 0 <= j < k => if i < k then (if i == j then 1 else 0) else Entry(i, j))
  }

  /** The entries of the encoding matrix: a unit matrix, and below it the inverses of i + j. */
  lemma EncodingEntries(k: nat, i: byte, j: byte)
    requires j < k <= 256
    ensures i < k ==> EncodingRow(i, k)[j] == if i == j then 1 else 0
    ensures i >= k ==> Times(Add(i, j), EncodingRow(i, k)[j]) == 1
  {
    hide Times, Add, Entry;
    if i >= k {
      EntryLaw(i, j);
    }
  }

  ghost predicate Sizes(k: nat, m: nat) {
    k >= 1 && m >= 1 && k + m <= 256
  }

  ghost predicate RowChoice(rows: seq<int>, k: nat, m: nat) {
    |rows| == k && Distinct(rows) && forall r :: 0 <= r < k ==> 0 <= rows[r] < k + m
  }

  ghost function ChosenRows(rows: seq<int>, k: nat, m: nat): (a: Matrix)
    requires Sizes(k, m) && RowChoice(rows, k, m)
    ensures Square(a, k)
  {
    seq(k, r requires 0 <= r < k => EncodingRow(rows[r], k))
  }

  /** The data columns below n whose unit row is not chosen. */
  ghost function Missing(rows: seq<int>, n: nat): (ys: seq<byte>)
    requires n <= 256
    ensures Distinct(ys)
    ensures forall j :: 0 <= j < |ys| ==> ys[j] < n && ys[j] !in rows
    ensures forall y: byte :: y < n && y !in rows ==> y in ys
  {
    if n == 0 then [] else if n - 1 in rows then Missing(rows, n - 1) else Missing(rows, n - 1) + [n - 1]
  }

  /** The parity rows among the first n chosen rows. */
  ghost function Parities(rows: seq<int>, k: nat, n: nat): (xs: seq<byte>)
    requires n <= |rows| && Distinct(rows) && forall r :: 0 <= r < |rows| ==> 0 <= rows[r] < 256
    ensures Distinct(xs)
    ensures forall j :: 0 <= j < |xs| ==> xs[j] >= k && exists r :: 0 <= r < n && rows[r] == xs[j]
    ensures forall r :: 0 <= r < n && rows[r] >= k ==> rows[r] in xs
  {
    if n == 0 then []
    else if rows[n - 1] < k then Parities(rows, k, n - 1)
    else Parities(rows, k, n - 1) + [rows[n - 1]]
  }

  /** As many parity rows are chosen as unit rows are missing. */
  lemma ChoiceBalance(rows: seq<int>, k: nat, m: nat)
    requires Sizes(k, m) && RowChoice(rows, k, m)
    ensures |Parities(rows, k, k)| == |Missing(rows, k)|
  {
    var chosen, data := Elements(rows), Interval(0, k);
    var xs: seq<int>, ys: seq<int> := Parities(rows, k, k), Missing(rows, k);
    DistinctSize(rows);
    DistinctSize(xs);
    DistinctSize(ys);
    IntervalSize(0, k);
    assert Elements(xs) == chosen - data;
    assert Elements(ys) == data - chosen;
    assert |chosen| == |chosen - data| + |chosen * data|;
    assert |data| == |data - chosen| + |chosen * data|;
  }

  ghost function Picked(x: Vec, ys: seq<byte>): (v: Vec)
    requires forall j :: 0 <= j < |ys| ==> ys[j] < |x|
    ensures |v| == |ys| && forall j :: 0 <= j < |ys| ==> v[j] == x[ys[j]]
  {
    seq(|ys|, j requires 0 <= j < |ys| => x[ys[j]])
  }

  lemma {:induction false} CauchySumPrefix(p: byte, ys: seq<byte>, zs: seq<byte>, u: Vec, v: Vec, n: nat)
    requires n <= |ys| && n <= |zs| && n <= |u| && n <= |v|
    requires forall j :: 0 <= j < |ys| ==> ys[j] != p
    requires forall j :: 0 <= j < |zs| ==> zs[j] != p
    requires forall j :: 0 <= j < n ==> ys[j] == zs[j] && u[j] == v[j]
    ensures CauchySum(p, ys, u, n) == CauchySum(p, zs, v, n)
  {
    hide Times, Add, Entry;
    if n > 0 {
      CauchySumPrefix(p, ys, zs, u, v, n - 1);
    }
  }

  lemma CauchySumExtend(p: byte, ys: seq<byte>, y: byte, x: Vec)
    requires p != y && y < |x| && forall j :: 0 <= j < |ys| ==> ys[j] != p && ys[j] < |x|
    ensures CauchySum(p, ys + [y], Picked(x, ys + [y]), |ys| + 1)
         == Add(CauchySum(p, ys, Picked(x, ys), |ys|), Times(x[y], Entry(p, y)))
  {
    hide Times, Add, Entry;
    CauchySumPrefix(p, ys, ys + [y], Picked(x, ys), Picked(x, ys + [y]), |ys|);
  }

  /** Against a vector that vanishes where the unit rows were chosen, a parity row is a Cauchy sum
      over the missing columns. */
  lemma {:induction false} ParityDot(p: byte, rows: seq<int>, x: Vec, k: nat, n: nat)
    requires n <= k == |x| && k <= 256 && p >= k
    requires forall j :: 0 <= j < k && j in rows ==> x[j] == 0
    ensures Dot(EncodingRow(p, k), x, n)
         == CauchySum(p, Missing(rows, n), Picked(x, Missing(rows, n)), |Missing(rows, n)|)
  {
    hide Times, Add, Entry, CauchySum;
    if n > 0 {
      ParityDot(p, rows, x, k, n - 1);
      var e := Entry(p, n - 1);
      assert Dot(EncodingRow(p, k), x, n) == Add(Dot(EncodingRow(p, k), x, n - 1), Times(e, x[n - 1]));
      TimesLaws(e, x[n - 1], 0);
      AddLaws(Dot(EncodingRow(p, k), x, n - 1), 0, 0);
      if n - 1 !in rows {
        CauchySumExtend(p, Missing(rows, n - 1), n - 1, x);
      }
    } else {
      NoColumns(p, Missing(rows, 0), Picked(x, Missing(rows, 0)));
    }
  }

  lemma NoColumns(p: byte, ys: seq<byte>, v: Vec)
    requires |ys| == |v| == 0
    ensures CauchySum(p, ys, v, 0) == 0
  {
  }

  /** Any k distinct rows of the encoding matrix are independent. */
  lemma ChosenRowsIndependent(rows: seq<int>, k: nat, m: nat)
    requires Sizes(k, m) && RowChoice(rows, k, m)
    ensures TrivialKernel(ChosenRows(rows, k, m))
  {
    var a := ChosenRows(rows, k, m);
    forall x: Vec | |x| == k && InKernel(a, x) ensures x == Zeros(k) {
      KernelIsZero(rows, x, k, m);
    }
  }

  lemma KernelIsZero(rows: seq<int>, x: Vec, k: nat, m: nat)
    requires Sizes(k, m) && RowChoice(rows, k, m) && |x| == k && InKernel(ChosenRows(rows, k, m), x)
    ensures x == Zeros(k)
  {
    hide Times, Add, Dot, CauchySum;
    var a := ChosenRows(rows, k, m);
    forall j | 0 <= j < k && j in rows ensures x[j] == 0 {
      var r :| 0 <= r < k && rows[r] == j;
      assert Dot(a[r], x, k) == 0;
      DotSingle(a[r], x, k, j);
      TimesLaws(x[j], 0, 0);
    }
    var xs, ys := Parities(rows, k, k), Missing(rows, k);
    var v := Picked(x, ys);
    ChoiceBalance(rows, k, m);
    forall p | 0 <= p < |xs| ensures CauchySum(xs[p], ys, v, |ys|) == 0 {
      var r :| 0 <= r < k && rows[r] == xs[p];
      assert Dot(a[r], x, k) == 0;
      ParityDot(xs[p], rows, x, k, k);
    }
    CauchyKernel(xs, ys, v, |ys|);
    forall j | 0 <= j < k ensures x[j] == 0 {
      if j !in rows {
        assert j in ys;
      }
    }
  }

  // ---------- when the inversion has to swap ----------

  ghost predicate Ascending(rows: seq<int>) {
    forall i, j :: 0 <= i < j < |rows| ==> rows[i] < rows[j]
  }

  /** Some data shard is missing below one that was chosen. */
  ghost predicate Gap(rows: seq<int>, k: nat) {
    exists y: nat, x: nat :: y < x < k && y !in rows && x in rows
  }

  lemma {:induction false} WithoutGap(rows: seq<int>, k: nat, i: nat)
    requires Ascending(rows) && (forall j :: 0 <= j < |rows| ==> rows[j] >= 0)
    requires !Gap(rows, k) && i < |rows| && rows[i] < k
    ensures rows[i] == i
  {
    if i > 0 {
      WithoutGap(rows, k, i - 1);
    }
    assert rows[i] in rows;
    assert rows[i] > i ==> i !in rows;
  }

  /** The first data shard out of its place. */
  lemma {:induction false} WithGap(rows: seq<int>, k: nat, y: nat, x: nat) returns (f: nat)
    requires Ascending(rows) && (forall j :: 0 <= j < |rows| ==> rows[j] >= 0) && y < x < k && y !in rows && x in rows
    ensures f < |rows| && f < rows[f] < k && forall i :: 0 <= i < f ==> rows[i] == i
  {
    var p :| 0 <= p < |rows| && rows[p] == x;
    f := 0;
    while rows[f] == f
      invariant f <= p && f <= y && forall i :: 0 <= i < f ==> rows[i] == i
      decreases p - f
    {
      assert rows[f] in rows;
      f := f + 1;
    }
    assert f > 0 ==> rows[f - 1] < rows[f];
  }

  /** The first entries of a row are a row of the smaller matrix. */
  lemma {:induction false} DotOfPrefix(row: Vec, short: Vec, x: Vec, n: nat)
    requires n <= |row| == |x| && |short| == n && forall j :: 0 <= j < n ==> short[j] == row[j]
    requires forall j :: n <= j < |x| ==> x[j] == 0
    ensures Dot(row, x, |x|) == Dot(short, x[..n], n)
  {
    DotDropsZeros(row, x, n, |x|);
    SameDot(row, short, x, x[..n], n);
  }

  lemma {:induction false} DotDropsZeros(row: Vec, x: Vec, n: nat, m: nat)
    requires n <= m <= |row| && m <= |x| && forall j :: n <= j < m ==> x[j] == 0
    ensures Dot(row, x, m) == Dot(row, x, n)
  {
    hide Times, Add;
    if n < m {
      DotDropsZeros(row, x, n, m - 1);
      TimesLaws(row[m - 1], 0, 0);
      AddLaws(Dot(row, x, m - 1), 0, 0);
    }
  }

  lemma {:induction false} SameDot(u: Vec, v: Vec, x: Vec, y: Vec, n: nat)
    requires n <= |u| && n <= |v| && n <= |x| && n <= |y|
    requires forall j :: 0 <= j < n ==> u[j] == v[j] && x[j] == y[j]
    ensures Dot(u, x, n) == Dot(v, y, n)
  {
    hide Times, Add;
    if n > 0 {
      SameDot(u, v, x, y, n - 1);
    }
  }

  /** Without a gap, each leading block is chosen from a smaller encoding matrix, and so is nonsingular. */
  lemma NoGapBlock(rows: seq<int>, k: nat, m: nat, n: nat)
    requires Sizes(k, m) && RowChoice(rows, k, m) && n <= k
    requires forall i :: 0 <= i < k ==> rows[i] == i || rows[i] >= k
    ensures LeadingBlock(ChosenRows(rows, k, m), k, n)
  {
    hide Dot;
    var a := ChosenRows(rows, k, m);
    forall x: Vec | |x| == k && (forall c :: n <= c < k ==> x[c] == 0) && Kills(a, x, n) ensures x == Zeros(k) {
      if n > 0 {
        var b := ChosenRows(rows[..n], n, k + m - n);
        forall r | 0 <= r < n ensures Dot(b[r], x[..n], n) == 0 {
          assert Dot(a[r], x, k) == 0;
          DotOfPrefix(a[r], b[r], x, n);
        }
        ChosenRowsIndependent(rows[..n], n, k + m - n);
        assert InKernel(b, x[..n]);
        assert forall c :: 0 <= c < n ==> x[c] == x[..n][c];
      }
    }
  }

  lemma GapBlock(rows: seq<int>, k: nat, m: nat, f: nat)
    requires Sizes(k, m) && RowChoice(rows, k, m) && f < k
    requires f < rows[f] < k && forall i :: 0 <= i < f ==> rows[i] == i
    ensures !LeadingBlock(ChosenRows(rows, k, m), k, f + 1)
  {
    hide Dot, Times;
    var a := ChosenRows(rows, k, m);
    var x: Vec := seq(k, c requires 0 <= c < k => if c == f then 1 else 0);
    forall r | 0 <= r < f + 1 ensures Dot(a[r], x, k) == 0 {
      DotZero(a[r], x, k);
    }
    assert Kills(a, x, f + 1);
    assert x[f] != Zeros(k)[f];
  }

  /** Zero pivots do occur: the chosen rows, in ascending order, can be inverted without a swap if and
      only if no data shard is missing below a chosen one. */
  lemma SwapIsNeeded(rows: seq<int>, k: nat, m: nat)
    requires Sizes(k, m) && RowChoice(rows, k, m) && Ascending(rows)
    ensures LeadingBlocks(ChosenRows(rows, k, m)) <==> !Gap(rows, k)
  {
    var a := ChosenRows(rows, k, m);
    hide LeadingBlock;
    if Gap(rows, k) {
      var y: nat, x: nat :| y < x < k && y !in rows && x in rows;
      var f := WithGap(rows, k, y, x);
      GapBlock(rows, k, m, f);
    } else {
      forall i | 0 <= i < k ensures rows[i] == i || rows[i] >= k {
        if rows[i] < k {
          WithoutGap(rows, k, i);
        }
      }
      forall n | 0 <= n <= k ensures LeadingBlock(a, k, n) {
        NoGapBlock(rows, k, m, n);
      }
    }
  }

  // ---------- every coefficient counts ----------

  /** Recovering a missing data shard uses every chosen shard: no coefficient is zero. */
  lemma NoZeroCoefficient(rows: seq<int>, k: nat, m: nat, inverse: Matrix, j: nat, i: nat)
    requires Sizes(k, m) && RowChoice(rows, k, m) && LeftInverse(inverse, ChosenRows(rows, k, m))
    requires j < k && j !in rows && i < k
    ensures inverse[j][i] != 0
  {
    hide Dot, Times, EncodingRow, TrivialKernel;
    var a := ChosenRows(rows, k, m);
    var unit: Vec := seq(k, c requires 0 <= c < k => if c == i then 1 else 0);
    var x := Apply(inverse, unit);
    ChosenRowsIndependent(rows, k, m);
    LeftInverseIsRight(inverse, a, unit);
    assert x[j] == inverse[j][i] by {
      DotSingle(inverse[j], unit, k, i);
      TimesLaws(inverse[j][i], 0, 0);
    }
    assert Apply(a, x)[i] == unit[i];
    if inverse[j][i] == 0 {
      var other := rows[i := j];
      assert RowChoice(other, k, m);
      forall r | 0 <= r < k ensures Dot(ChosenRows(other, k, m)[r], x, k) == 0 {
        if r == i {
          UnitRowDot(j, k, x);
        } else {
          assert Apply(a, x)[r] == unit[r];
        }
      }
      ChosenRowsIndependent(other, k, m);
      assert InKernel(ChosenRows(other, k, m), x);
      KernelIsZero(other, x, k, m);
      DotZero(a[i], x, k);
    }
  }

  lemma UnitRowDot(j: nat, k: nat, x: Vec)
    requires j < k <= 256 && |x| == k
    ensures Dot(EncodingRow(j, k), x, k) == x[j]
  {
    hide Dot, Times;
    DotSingle(EncodingRow(j, k), x, k, j);
    TimesLaws(x[j], 0, 0);
  }
}
