/** Bitwise exclusive-or on unbounded naturals, and bytes.

    One `Xor` serves the whole project: it is the `^` of the erasure code, the addition of
    polynomials over GF(2) (a natural stands for the polynomial whose coefficients are its
    bits), and the distance of the DHT's 160-bit identifiers. */
module Bits {
  type byte = x: int | 0 <= x < 256

  function Xor(a: nat, b: nat): nat
    decreases a + b
  {
    if a == 0 && b == 0 then 0 else 2 * Xor(a / 2, b / 2) + Parity(a % 2, b % 2)
  }

  function XorByte(a: byte, b: byte): byte {
    assert Pow2(8) == 256;
    XorBound(a, b, 8);
    Xor(a, b)
  }

  /** Exclusive-or of two bits. */
  function Parity(r: nat, s: nat): (p: nat)
    ensures p < 2
  {
    if r == s then 0 else 1
  }

  function Pow2(n: nat): (p: nat)
    ensures p >= 1
  {
    if n == 0 then 1 else 2 * Pow2(n - 1)
  }

  lemma {:induction false} Pow2Monotone(m: nat, n: nat)
    requires m <= n
    ensures Pow2(m) <= Pow2(n)
    decreases n - m
  {
    if m < n {
      Pow2Monotone(m + 1, n);
    }
  }

  lemma {:induction false} Pow2Add(m: nat, n: nat)
    ensures Pow2(m + n) == Pow2(m) * Pow2(n)
  {
    if m > 0 {
      Pow2Add(m - 1, n);
      assert Pow2(m + n) == 2 * Pow2(m - 1 + n);
      assert 2 * (Pow2(m - 1) * Pow2(n)) == (2 * Pow2(m - 1)) * Pow2(n);
    }
  }

  lemma {:induction false} XorZero(a: nat)
    ensures Xor(a, 0) == a && Xor(0, a) == a
    decreases a
  {
    if a > 0 {
      XorZero(a / 2);
    }
  }

  lemma {:induction false} XorSelf(a: nat)
    ensures Xor(a, a) == 0
  {
    if a > 0 {
      XorSelf(a / 2);
    }
  }

  lemma {:induction false} XorComm(a: nat, b: nat)
    ensures Xor(a, b) == Xor(b, a)
    decreases a + b
  {
    if a + b > 0 {
      XorComm(a / 2, b / 2);
    }
  }

  /** Exclusive-or acts on the low bit and the rest separately. */
  lemma XorBit(a: nat, b: nat, r: nat, s: nat)
    requires r < 2 && s < 2
    ensures Xor(2 * a + r, 2 * b + s) == 2 * Xor(a, b) + Parity(r, s)
  {
    assert (2 * a + r) / 2 == a && (2 * b + s) / 2 == b;
  }

  lemma {:induction false} XorAssoc(a: nat, b: nat, c: nat)
    ensures Xor(Xor(a, b), c) == Xor(a, Xor(b, c))
    decreases a + b + c
  {
    if a + b + c > 0 {
      XorAssoc(a / 2, b / 2, c / 2);
      XorAssocBit(a / 2, b / 2, c / 2, a % 2, b % 2, c % 2);
    }
  }

  lemma XorAssocBit(a: nat, b: nat, c: nat, r: nat, s: nat, t: nat)
    requires r < 2 && s < 2 && t < 2
    requires Xor(Xor(a, b), c) == Xor(a, Xor(b, c))
    ensures Xor(Xor(2 * a + r, 2 * b + s), 2 * c + t) == Xor(2 * a + r, Xor(2 * b + s, 2 * c + t))
  {
    hide Xor;
    XorBit(a, b, r, s);
    XorBit(b, c, s, t);
    XorBit(Xor(a, b), c, Parity(r, s), t);
    XorBit(a, Xor(b, c), r, Parity(s, t));
  }

  lemma {:induction false} XorBound(a: nat, b: nat, n: nat)
    requires a < Pow2(n) && b < Pow2(n)
    ensures Xor(a, b) < Pow2(n)
  {
    if n > 0 {
      XorBound(a / 2, b / 2, n - 1);
    }
  }

  /** Exclusive-or is zero only for equal arguments. */
  lemma {:induction false} XorIsZero(a: nat, b: nat)
    requires Xor(a, b) == 0
    ensures a == b
  {
    XorSelf(b);
    XorAssoc(a, b, b);
    XorZero(a);
    XorZero(b);
  }

  lemma {:induction false} XorAtMostSum(a: nat, b: nat)
    ensures Xor(a, b) <= a + b
    decreases a + b
  {
    if a + b > 0 {
      XorAtMostSum(a / 2, b / 2);
    }
  }

  /** Exclusive-or acts on high and low n-bit parts separately. */
  lemma {:induction false} XorConcat(n: nat, a: nat, b: nat, r: nat, s: nat)
    requires r < Pow2(n) && s < Pow2(n)
    ensures Xor(a * Pow2(n) + r, b * Pow2(n) + s) == Xor(a, b) * Pow2(n) + Xor(r, s)
  {
    hide Xor;
    if n > 0 {
      var p := Pow2(n - 1);
      XorConcat(n - 1, a, b, r / 2, s / 2);
      Twice(a, p);
      Twice(b, p);
      Twice(Xor(a, b), p);
      XorConcatBit(a * p, b * p, Xor(a, b) * p, r / 2, s / 2, r % 2, s % 2);
    } else {
      XorZero(0);
    }
  }

  lemma XorConcatBit(a: nat, b: nat, c: nat, r: nat, s: nat, t: nat, u: nat)
    requires t < 2 && u < 2 && Xor(a + r, b + s) == c + Xor(r, s)
    ensures Xor(2 * a + (2 * r + t), 2 * b + (2 * s + u)) == 2 * c + Xor(2 * r + t, 2 * s + u)
  {
    hide Xor;
    XorBit(a + r, b + s, t, u);
    XorBit(r, s, t, u);
  }

  lemma Twice(a: nat, p: nat)
    ensures a * (2 * p) == 2 * (a * p)
  {
  }

  // ---------- finite sets ----------

  lemma {:induction false} SubsetSize<T>(a: set<T>, b: set<T>)
    requires a <= b
    ensures |a| <= |b|
    ensures |a| == |b| ==> a == b
  {
    if a != {} {
      var x :| x in a;
      SubsetSize(a - {x}, b - {x});
    }
  }

  function Interval(lo: int, hi: int): (s: set<int>)
    ensures forall x :: x in s <==> lo <= x < hi
    decreases hi - lo
  {
    if lo < hi then Interval(lo, hi - 1) + {hi - 1} else {}
  }

  lemma {:induction false} IntervalSize(lo: int, hi: int)
    requires lo <= hi
    ensures |Interval(lo, hi)| == hi - lo
    decreases hi - lo
  {
    if lo < hi {
      IntervalSize(lo, hi - 1);
    }
  }

  ghost predicate Distinct<T>(s: seq<T>) {
    forall i, j :: 0 <= i < j < |s| ==> s[i] != s[j]
  }

  ghost function Elements<T>(s: seq<T>): set<T> {
    set x | x in s
  }

  lemma {:induction false} DistinctSize<T>(s: seq<T>)
    requires Distinct(s)
    ensures |Elements(s)| == |s|
  {
    if s != [] {
      var t, x := s[..|s| - 1], s[|s| - 1];
      assert s == t + [x];
      DistinctSize(t);
      assert Elements(s) == Elements(t) + {x};
    }
  }

  lemma {:induction false} ElementsBound<T>(s: seq<T>)
    ensures |Elements(s)| <= |s|
  {
    if s != [] {
      var t, x := s[..|s| - 1], s[|s| - 1];
      assert s == t + [x];
      ElementsBound(t);
      assert Elements(s) == Elements(t) + {x};
    }
  }
}
