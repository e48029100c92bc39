/** Square systems over GF(2^8): inner products, elementary row operations, kernels. */
module LinearAlgebra {
  import opened Bits
  import opened GF256

  type Vec = seq<byte>
  type Matrix = seq<seq<byte>>

  /** Inner product of the first n entries. */
  function Dot(u: Vec, v: Vec, n: nat): byte
    requires n <= |u| && n <= |v|
  {
    if n == 0 then 0 else Add(Dot(u, v, n - 1), Times(u[n - 1], v[n - 1]))
  }

  ghost predicate Square(m: Matrix, n: nat) {
    |m| == n && forall r :: 0 <= r < n ==> |m[r]| == n
  }

  function Column(m: Matrix, c: nat, n: nat): (v: Vec)
    requires n <= |m| && forall r :: 0 <= r < n ==> c < |m[r]|
    ensures |v| == n
  {
    seq(n, r requires 0 <= r < n => m[r][c])
  }

  function Zeros(n: nat): (v: Vec)
    ensures |v| == n && forall i :: 0 <= i < n ==> v[i] == 0
  {
    seq(n, _ => 0)
  }

  function Scaled(u: Vec, s: byte): (v: Vec)
    ensures |v| == |u| && forall i :: 0 <= i < |u| ==> v[i] == Times(u[i], s)
  {
    seq(|u|, i requires 0 <= i < |u| => Times(u[i], s))
  }

  /** u + f * p, entry by entry. */
  function PlusMultiple(u: Vec, f: byte, p: Vec): (v: Vec)
    requires |u| == |p|
    ensures |v| == |u| && forall i :: 0 <= i < |u| ==> v[i] == Add(u[i], Times(f, p[i]))
  {
    seq(|u|, i requires 0 <= i < |u| => Add(u[i], Times(f, p[i])))
  }

  // ---------- inner products ----------

  lemma {:induction false} DotScaled(u: Vec, s: byte, v: Vec, n: nat)
    requires n <= |u| && n <= |v|
    ensures Dot(Scaled(u, s), v, n) == Times(s, Dot(u, v, n))
  {
    hide Times, Add;
    if n > 0 {
      DotScaled(u, s, v, n - 1);
      TimesLaws(u[n - 1], s, v[n - 1]);
      TimesLaws(s, u[n - 1], v[n - 1]);
      TimesLaws(s, Dot(u, v, n - 1), Times(u[n - 1], v[n - 1]));
    } else {
      TimesLaws(s, 0, 0);
    }
  }

  lemma {:induction false} DotPlusMultiple(u: Vec, f: byte, p: Vec, v: Vec, n: nat)
    requires n <= |u| == |p| && n <= |v|
    ensures Dot(PlusMultiple(u, f, p), v, n) == Add(Dot(u, v, n), Times(f, Dot(p, v, n)))
  {
    hide Times, Add;
    if n > 0 {
      DotPlusMultiple(u, f, p, v, n - 1);
      var x, y, z := u[n - 1], p[n - 1], v[n - 1];
      TimesLaws(x, Times(f, y), z);
      TimesLaws(x, z, z);
      TimesLaws(Times(f, y), z, z);
      TimesLaws(z, x, Times(f, y));
      TimesLaws(x, Times(f, y), z);
      TimesLaws(f, y, z);
      TimesLaws(f, Dot(p, v, n - 1), Times(y, z));
      AddSwap(Dot(u, v, n - 1), Times(f, Dot(p, v, n - 1)), Times(x, z), Times(f, Times(y, z)));
    } else {
      TimesLaws(f, 0, 0);
      AddLaws(0, 0, 0);
    }
  }

  lemma {:induction false} DotComm(u: Vec, v: Vec, n: nat)
    requires n <= |u| && n <= |v|
    ensures Dot(u, v, n) == Dot(v, u, n)
  {
    hide Times, Add;
    if n > 0 {
      DotComm(u, v, n - 1);
      TimesLaws(u[n - 1], v[n - 1], 0);
    }
  }

  lemma {:induction false} DotZero(u: Vec, v: Vec, n: nat)
    requires n <= |u| && n <= |v|
    requires forall i :: 0 <= i < n ==> u[i] == 0 || v[i] == 0
    ensures Dot(u, v, n) == 0
  {
    hide Times, Add;
    AddLaws(0, 0, 0);
    if n > 0 {
      DotZero(u, v, n - 1);
      TimesLaws(u[n - 1], v[n - 1], 0);
      TimesLaws(v[n - 1], u[n - 1], 0);
    }
  }

  /** Only entry p contributes. */
  lemma {:induction false} DotSingle(u: Vec, v: Vec, n: nat, p: nat)
    requires p < n <= |u| && n <= |v|
    requires forall i :: 0 <= i < n && i != p ==> u[i] == 0 || v[i] == 0
    ensures Dot(u, v, n) == Times(u[p], v[p])
  {
    hide Times, Add;
    var t := Times(u[p], v[p]);
    AddLaws(t, 0, 0);
    if p == n - 1 {
      DotZero(u, v, n - 1);
    } else {
      DotSingle(u, v, n - 1, p);
      TimesLaws(u[n - 1], v[n - 1], 0);
      TimesLaws(v[n - 1], u[n - 1], 0);
    }
  }

  /** Only entries p and q contribute. */
  lemma {:induction false} DotPair(u: Vec, v: Vec, n: nat, p: nat, q: nat)
    requires p < q < n <= |u| && n <= |v|
    requires forall i :: 0 <= i < n && i != p && i != q ==> u[i] == 0 || v[i] == 0
    ensures Dot(u, v, n) == Add(Times(u[p], v[p]), Times(u[q], v[q]))
  {
    hide Times, Add;
    if q == n - 1 {
      DotSingle(u, v, n - 1, p);
    } else {
      DotPair(u, v, n - 1, p, q);
      TimesLaws(u[n - 1], v[n - 1], 0);
      TimesLaws(v[n - 1], u[n - 1], 0);
      AddLaws(Dot(u, v, n - 1), 0, 0);
    }
  }

  // ---------- matrices as linear maps ----------

  /** The product of a matrix and a column vector. */
  function Apply(m: Matrix, x: Vec): (y: Vec)
    requires forall r :: 0 <= r < |m| ==> |m[r]| == |x|
    ensures |y| == |m|
  {
    seq(|m|, r requires 0 <= r < |m| => Dot(m[r], x, |x|))
  }

  ghost predicate InKernel(m: Matrix, x: Vec)
    requires forall r :: 0 <= r < |m| ==> |m[r]| == |x|
  {
    forall r :: 0 <= r < |m| ==> Dot(m[r], x, |x|) == 0
  }

  /** The first `rows` rows map x to zero. */
  ghost predicate Kills(m: Matrix, x: Vec, rows: nat)
    requires rows <= |m| && forall r :: 0 <= r < |m| ==> |m[r]| == |x|
  {
    forall r :: 0 <= r < rows ==> Dot(m[r], x, |x|) == 0
  }

  /** Nothing but zero is mapped to zero: the matrix is nonsingular. */
  ghost predicate TrivialKernel(m: Matrix) {
    Square(m, |m|) && forall x: Vec :: |x| == |m| && InKernel(m, x) ==> x == Zeros(|m|)
  }

  /** l * m is the identity. */
  ghost predicate LeftInverse(l: Matrix, m: Matrix) {
    && Square(m, |m|) && Square(l, |m|)
    && forall r, c :: 0 <= r < |m| && 0 <= c < |m| ==>
         Dot(l[r], Column(m, c, |m|), |m|) == if r == c then 1 else 0
  }

  /** The first p entries of w times the first p rows of m. */
  function RowTimes(w: Vec, m: Matrix, p: nat, n: nat): (v: Vec)
    requires p <= |w| && p <= |m| && forall r :: 0 <= r < |m| ==> |m[r]| == n
    ensures |v| == n
  {
    seq(n, c requires 0 <= c < n => Dot(w, Column(m, c, |m|), p))
  }

  /** (w m) x == w (m x). */
  lemma {:induction false} DotAssociative(w: Vec, m: Matrix, x: Vec, p: nat)
    requires p <= |w| && p <= |m| && forall r :: 0 <= r < |m| ==> |m[r]| == |x|
    ensures Dot(w, Apply(m, x), p) == Dot(RowTimes(w, m, p, |x|), x, |x|)
  {
    hide Times, Add;
    var n := |x|;
    if p == 0 {
      DotZero(RowTimes(w, m, 0, n), x, n);
    } else {
      DotAssociative(w, m, x, p - 1);
      var before, row := RowTimes(w, m, p - 1, n), m[p - 1];
      assert RowTimes(w, m, p, n) == PlusMultiple(before, w[p - 1], row);
      DotPlusMultiple(before, w[p - 1], row, x, n);
    }
  }

  /** A left inverse undoes the map. */
  lemma LeftInverseUndoes(l: Matrix, m: Matrix, x: Vec, j: nat)
    requires LeftInverse(l, m) && |x| == |m| && j < |m|
    ensures Dot(l[j], Apply(m, x), |m|) == x[j]
  {
    hide Times, Dot;
    DotAssociative(l[j], m, x, |m|);
    DotSingle(RowTimes(l[j], m, |m|, |m|), x, |m|, j);
    TimesLaws(x[j], 0, 0);
  }

  // ---------- Gauss-Jordan elimination ----------

  function Swapped(m: Matrix, p: nat, q: nat): Matrix
    requires p < |m| && q < |m|
  {
    m[p := m[q]][q := m[p]]
  }

  /** The invariant of the elimination: `inv` * `m` is `a`, and `a` has the kernel of `m`. */
  ghost predicate Reduced(m: Matrix, a: Matrix, inv: Matrix, n: nat) {
    && Square(m, n) && Square(a, n) && Square(inv, n)
    && (forall r, c :: 0 <= r < n && 0 <= c < n ==> Dot(inv[r], Column(m, c, n), n) == a[r][c])
    && SameKernel(a, m, n, n)
  }

  ghost predicate UnitColumns(a: Matrix, n: nat, cols: nat)
    requires Square(a, n) && cols <= n
  {
    forall r, c :: 0 <= r < n && 0 <= c < cols ==> a[r][c] == if r == c then 1 else 0
  }

  function Identity(n: nat): (m: Matrix)
    ensures Square(m, n) && UnitColumns(m, n, n)
  {
    seq(n, r requires 0 <= r < n => seq(n, c requires 0 <= c < n => if r == c then 1 else 0))
  }

  lemma ReducedAtStart(m: Matrix, n: nat)
    requires Square(m, n)
    ensures Reduced(m, m, Identity(n), n)
  {
    hide Times, Dot;
    var id := Identity(n);
    forall r, c | 0 <= r < n && 0 <= c < n ensures Dot(id[r], Column(m, c, n), n) == m[r][c] {
      DotSingle(id[r], Column(m, c, n), n, r);
      TimesLaws(m[r][c], 0, 0);
    }
  }

  /** The first `rows` rows of both matrices kill the same vectors. */
  ghost predicate SameKernel(a: Matrix, b: Matrix, n: nat, rows: nat)
    requires Square(a, n) && Square(b, n) && rows <= n
  {
    forall x: Vec :: |x| == n ==> (Kills(a, x, rows) <==> Kills(b, x, rows))
  }

  lemma SwapKeeps(m: Matrix, a: Matrix, inv: Matrix, n: nat, p: nat, q: nat)
    requires Reduced(m, a, inv, n) && p < n && q < n
    ensures Reduced(m, Swapped(a, p, q), Swapped(inv, p, q), n)
  {
    hide Dot, Kills;
    var b, l := Swapped(a, p, q), Swapped(inv, p, q);
    forall r, c | 0 <= r < n && 0 <= c < n ensures Dot(l[r], Column(m, c, n), n) == b[r][c] {
      var s := if r == p then q else if r == q then p else r;
      assert b[r] == a[s] && l[r] == inv[s];
    }
    SwapKeepsKernel(a, n, p, q);
  }

  lemma SwapKeepsKernel(a: Matrix, n: nat, p: nat, q: nat)
    requires Square(a, n) && p < n && q < n
    ensures SameKernel(Swapped(a, p, q), a, n, n)
  {
    hide Dot;
    var b := Swapped(a, p, q);
    forall x: Vec | |x| == n ensures Kills(b, x, n) <==> Kills(a, x, n) {
      if Kills(b, x, n) {
        forall r | 0 <= r < n ensures Dot(a[r], x, n) == 0 {
          var s := if r == p then q else if r == q then p else r;
          assert b[s] == a[r];
        }
      }
    }
  }

  lemma ScaleKeeps(m: Matrix, a: Matrix, inv: Matrix, n: nat, p: nat, s: byte)
    requires Reduced(m, a, inv, n) && p < n && s != 0
    ensures Reduced(m, a[p := Scaled(a[p], s)], inv[p := Scaled(inv[p], s)], n)
  {
    hide Dot, Times, Kills;
    var b, l := a[p := Scaled(a[p], s)], inv[p := Scaled(inv[p], s)];
    forall r, c | 0 <= r < n && 0 <= c < n ensures Dot(l[r], Column(m, c, n), n) == b[r][c] {
      DotScaled(inv[p], s, Column(m, c, n), n);
      TimesLaws(s, a[p][c], 0);
    }
    ScaleKeepsKernel(a, n, n, p, s);
  }

  lemma ScaleKeepsKernel(a: Matrix, n: nat, rows: nat, p: nat, s: byte)
    requires Square(a, n) && p < rows <= n && s != 0
    ensures SameKernel(a[p := Scaled(a[p], s)], a, n, rows)
  {
    hide Dot, Times;
    var b := a[p := Scaled(a[p], s)];
    forall x: Vec | |x| == n ensures Kills(b, x, rows) <==> Kills(a, x, rows) {
      DotScaled(a[p], s, x, n);
      TimesLaws(s, 0, 0);
      if Dot(b[p], x, n) == 0 {
        NoZeroDivisors(s, Dot(a[p], x, n));
      }
      if Kills(b, x, rows) {
        assert Dot(b[p], x, n) == 0;
        forall i | 0 <= i < rows ensures Dot(a[i], x, n) == 0 {
          assert i != p ==> Dot(b[i], x, n) == 0;
        }
      }
      if Kills(a, x, rows) {
        assert Dot(a[p], x, n) == 0;
        forall i | 0 <= i < rows ensures Dot(b[i], x, n) == 0 {
          assert i != p ==> Dot(a[i], x, n) == 0;
        }
      }
    }
  }

  lemma EliminateKeeps(m: Matrix, a: Matrix, inv: Matrix, n: nat, r: nat, p: nat, f: byte)
    requires Reduced(m, a, inv, n) && p < n && r < n && r != p
    ensures Reduced(m, a[r := PlusMultiple(a[r], f, a[p])], inv[r := PlusMultiple(inv[r], f, inv[p])], n)
  {
    hide Dot, Times, Add, Kills;
    var b, l := a[r := PlusMultiple(a[r], f, a[p])], inv[r := PlusMultiple(inv[r], f, inv[p])];
    forall i, c | 0 <= i < n && 0 <= c < n ensures Dot(l[i], Column(m, c, n), n) == b[i][c] {
      DotPlusMultiple(inv[r], f, inv[p], Column(m, c, n), n);
    }
    EliminateKeepsKernel(a, n, n, r, p, f);
  }

  lemma EliminateKeepsKernel(a: Matrix, n: nat, rows: nat, r: nat, p: nat, f: byte)
    requires Square(a, n) && p < rows <= n && r < n && r != p
    ensures SameKernel(a[r := PlusMultiple(a[r], f, a[p])], a, n, rows)
  {
    hide Dot, Times, Add;
    var b := a[r := PlusMultiple(a[r], f, a[p])];
    forall x: Vec | |x| == n ensures Kills(b, x, rows) <==> Kills(a, x, rows) {
      DotPlusMultiple(a[r], f, a[p], x, n);
      TimesLaws(f, 0, 0);
      AddLaws(Dot(a[r], x, n), 0, 0);
      if Kills(b, x, rows) {
        assert Dot(b[p], x, n) == 0;
        forall i | 0 <= i < rows ensures Dot(a[i], x, n) == 0 {
          assert Dot(b[i], x, n) == 0;
        }
      }
      if Kills(a, x, rows) {
        assert Dot(a[p], x, n) == 0;
        forall i | 0 <= i < rows ensures Dot(b[i], x, n) == 0 {
          assert Dot(a[i], x, n) == 0;
        }
      }
    }
  }

  /** What back substitution gives for a column whose first entries are zero from the diagonal on. */
  function BackSolved(a: Matrix, n: nat, col: nat): (x: Vec)
    requires Square(a, n) && col < n
    ensures |x| == n
  {
    seq(n, j requires 0 <= j < n => if j < col then a[j][col] else if j == col then 1 else 0)
  }

  lemma BackSolvedKills(a: Matrix, n: nat, col: nat, r: nat)
    requires Square(a, n) && col < n && UnitColumns(a, n, col) && r < n && (r < col || a[r][col] == 0)
    ensures Dot(a[r], BackSolved(a, n, col), n) == 0
  {
    hide Dot, Times, Add;
    var x := BackSolved(a, n, col);
    TimesLaws(a[r][col], 0, 0);
    if r < col {
      DotPair(a[r], x, n, r, col);
      AddLaws(a[r][col], 0, 0);
    } else {
      DotZero(a[r], x, n);
    }
  }

  /** When no pivot can be found in a column, the matrix maps some nonzero vector to zero. */
  lemma NoPivotIsSingular(m: Matrix, a: Matrix, inv: Matrix, n: nat, col: nat)
    requires Reduced(m, a, inv, n) && col < n && UnitColumns(a, n, col)
    requires forall r :: col <= r < n ==> a[r][col] == 0
    ensures !TrivialKernel(m)
  {
    hide Dot;
    var x := BackSolved(a, n, col);
    forall r | 0 <= r < n ensures Dot(a[r], x, n) == 0 {
      BackSolvedKills(a, n, col, r);
    }
    assert Kills(a, x, n);
    assert Kills(m, x, n) && InKernel(m, x);
    assert x[col] != Zeros(n)[col];
  }

  // ---------- when a swap is needed ----------

  /** Nothing but zero among the vectors that vanish from entry `rows` on is killed by the first
      `rows` rows: the leading block of that size is nonsingular. */
  ghost predicate LeadingBlock(m: Matrix, n: nat, rows: nat)
    requires Square(m, n) && rows <= n
  {
    forall x: Vec :: |x| == n && (forall c :: rows <= c < n ==> x[c] == 0) && Kills(m, x, rows) ==> x == Zeros(n)
  }

  /** All leading blocks are nonsingular. */
  ghost predicate LeadingBlocks(m: Matrix) {
    Square(m, |m|) && forall rows :: 0 <= rows <= |m| ==> LeadingBlock(m, |m|, rows)
  }

  /** From `first` on, leading rows kill what they did at the start. */
  ghost predicate SameLeading(a: Matrix, m: Matrix, n: nat, first: nat)
    requires Square(a, n) && Square(m, n)
  {
    forall rows :: first <= rows <= n ==> SameKernel(a, m, n, rows)
  }

  lemma ScaleKeepsLeading(a: Matrix, m: Matrix, n: nat, p: nat, s: byte)
    requires Square(a, n) && Square(m, n) && p < n && s != 0 && SameLeading(a, m, n, p + 1)
    ensures SameLeading(a[p := Scaled(a[p], s)], m, n, p + 1)
  {
    hide Kills;
    var b := a[p := Scaled(a[p], s)];
    forall rows | p + 1 <= rows <= n ensures SameKernel(b, m, n, rows) {
      ScaleKeepsKernel(a, n, rows, p, s);
      assert SameKernel(a, m, n, rows);
    }
  }

  lemma EliminateKeepsLeading(a: Matrix, m: Matrix, n: nat, r: nat, p: nat, f: byte)
    requires Square(a, n) && Square(m, n) && p < n && r < n && r != p && SameLeading(a, m, n, p + 1)
    ensures SameLeading(a[r := PlusMultiple(a[r], f, a[p])], m, n, p + 1)
  {
    hide Kills;
    var b := a[r := PlusMultiple(a[r], f, a[p])];
    forall rows | p + 1 <= rows <= n ensures SameKernel(b, m, n, rows) {
      EliminateKeepsKernel(a, n, rows, r, p, f);
      assert SameKernel(a, m, n, rows);
    }
  }

  /** Without a swap so far, a zero pivot means a singular leading block. */
  lemma ZeroPivotBlock(m: Matrix, a: Matrix, n: nat, col: nat)
    requires Square(m, n) && Square(a, n) && col < n && UnitColumns(a, n, col) && SameLeading(a, m, n, col)
    requires a[col][col] == 0
    ensures !LeadingBlock(m, n, col + 1)
  {
    hide Dot;
    var x := BackSolved(a, n, col);
    forall r | 0 <= r < col + 1 ensures Dot(a[r], x, n) == 0 {
      BackSolvedKills(a, n, col, r);
    }
    assert Kills(a, x, col + 1) && SameKernel(a, m, n, col + 1);
    assert Kills(m, x, col + 1);
    assert x[col] != Zeros(n)[col];
  }

  /** And columns reduced without a swap mean a nonsingular one. */
  lemma UnitBlock(m: Matrix, a: Matrix, n: nat, col: nat)
    requires Square(m, n) && Square(a, n) && col <= n && UnitColumns(a, n, col) && SameLeading(a, m, n, col)
    ensures LeadingBlock(m, n, col)
  {
    hide Dot, Times;
    assert SameKernel(a, m, n, col);
    forall x: Vec | |x| == n && (forall c :: col <= c < n ==> x[c] == 0) && Kills(m, x, col) ensures x == Zeros(n) {
      assert Kills(a, x, col);
      forall r | 0 <= r < col ensures x[r] == 0 {
        assert Dot(a[r], x, n) == 0;
        DotSingle(a[r], x, n, r);
        TimesLaws(x[r], 0, 0);
      }
    }
  }

  /** At the end, `inv` is a left inverse and the kernel is trivial. */
  lemma ReducedAtEnd(m: Matrix, a: Matrix, inv: Matrix, n: nat)
    requires Reduced(m, a, inv, n) && UnitColumns(a, n, n)
    ensures LeftInverse(inv, m) && TrivialKernel(m)
  {
    hide Dot;
    forall x: Vec | |x| == n && InKernel(m, x) ensures x == Zeros(n) {
      assert Kills(m, x, n) && Kills(a, x, n) && InKernel(a, x);
      UnitKernel(a, x, n);
    }
    forall r, c | 0 <= r < n && 0 <= c < n
      ensures Dot(inv[r], Column(m, c, n), n) == if r == c then 1 else 0
    {
      assert a[r][c] == if r == c then 1 else 0;
    }
  }

  lemma UnitKernel(a: Matrix, x: Vec, n: nat)
    requires Square(a, n) && UnitColumns(a, n, n) && |x| == n && InKernel(a, x)
    ensures x == Zeros(n)
  {
    hide Dot, Times;
    forall r | 0 <= r < n ensures x[r] == 0 {
      DotSingle(a[r], x, n, r);
      TimesLaws(x[r], 0, 0);
    }
  }

  // ---------- nonsingular maps are onto ----------

  ghost function Vectors(n: nat): set<Vec> {
    if n == 0 then {[]} else set v, b: byte | v in Vectors(n - 1) && 0 <= b < 256 :: v + [b]
  }

  lemma {:induction false} VectorsAreAll(n: nat, v: Vec)
    ensures v in Vectors(n) <==> |v| == n
  {
    if n > 0 {
      if |v| == n {
        VectorsAreAll(n - 1, v[..n - 1]);
        assert v == v[..n - 1] + [v[n - 1]];
      }
      if v in Vectors(n) {
        var u, b: byte :| u in Vectors(n - 1) && v == u + [b];
        VectorsAreAll(n - 1, u);
      }
    }
  }

  ghost function Image(s: set<Vec>, f: Vec -> Vec): set<Vec> {
    set x | x in s :: f(x)
  }

  lemma {:induction false} ImageSize(s: set<Vec>, f: Vec -> Vec)
    requires forall x, y :: x in s && y in s && f(x) == f(y) ==> x == y
    ensures |Image(s, f)| == |s|
  {
    if s != {} {
      var x :| x in s;
      ImageSize(s - {x}, f);
      assert Image(s, f) == Image(s - {x}, f) + {f(x)};
    }
  }

  /** Equal images under a nonsingular map come from equal vectors. */
  lemma NonsingularIsInjective(m: Matrix, x: Vec, y: Vec)
    requires TrivialKernel(m) && |x| == |y| == |m| && Apply(m, x) == Apply(m, y)
    ensures x == y
  {
    hide Dot, Times, Add;
    var n, d := |m|, PlusMultiple(x, 1, y);
    forall r | 0 <= r < n ensures Dot(m[r], d, n) == 0 {
      assert Apply(m, x)[r] == Apply(m, y)[r];
      DotComm(m[r], d, n);
      DotComm(m[r], x, n);
      DotComm(m[r], y, n);
      DotPlusMultiple(x, 1, y, m[r], n);
      TimesLaws(Dot(y, m[r], n), 0, 0);
      AddLaws(Dot(x, m[r], n), 0, 0);
    }
    assert InKernel(m, d);
    forall i | 0 <= i < n ensures x[i] == y[i] {
      assert d[i] == Zeros(n)[i];
      TimesLaws(y[i], 0, 0);
      AddCancel(x[i], y[i]);
    }
  }

  /** There are finitely many vectors, so a nonsingular map reaches all of them. */
  lemma NonsingularIsOnto(m: Matrix, y: Vec) returns (x: Vec)
    requires TrivialKernel(m) && |y| == |m|
    ensures |x| == |m| && Apply(m, x) == y
  {
    hide TrivialKernel, Apply;
    var n, all := |m|, Vectors(|m|);
    var f: Vec -> Vec := v => if |v| == |m| && Square(m, |m|) then Apply(m, v) else v;
    assert Square(m, n) by { NonsingularIsSquare(m); }
    forall u, v | u in all && v in all && f(u) == f(v) ensures u == v {
      VectorsAreAll(n, u);
      VectorsAreAll(n, v);
      NonsingularIsInjective(m, u, v);
    }
    ImageSize(all, f);
    forall v | v in Image(all, f) ensures v in all {
      var u :| u in all && f(u) == v;
      VectorsAreAll(n, u);
      VectorsAreAll(n, v);
    }
    SubsetSize(Image(all, f), all);
    VectorsAreAll(n, y);
    x :| x in all && f(x) == y;
    VectorsAreAll(n, x);
  }

  lemma NonsingularIsSquare(m: Matrix)
    requires TrivialKernel(m)
    ensures Square(m, |m|)
  {
  }

  /** A left inverse is a right inverse. */
  lemma LeftInverseIsRight(l: Matrix, m: Matrix, y: Vec)
    requires LeftInverse(l, m) && TrivialKernel(m) && |y| == |m|
    ensures Apply(m, Apply(l, y)) == y
  {
    hide Dot, TrivialKernel;
    var x := NonsingularIsOnto(m, y);
    forall j | 0 <= j < |m| ensures Apply(l, y)[j] == x[j] {
      LeftInverseUndoes(l, m, x, j);
    }
    assert Apply(l, y) == x;
  }
}
