/** The field GF(2^8): bytes as polynomials over GF(2) modulo 0x11d.

    `Times` is the field's product. It is defined by Horner's rule on the bits of its second
    argument and knows nothing of logarithm tables; `TimesIsCarrylessProduct` and
    `PolyModIsRemainder` identify it with carry-less multiplication followed by polynomial
    remainder. The table-driven arithmetic of the source is in module `GFTables`. */
module GF256 {
  import opened Bits

  const PRIMITIVE := 0x11d

  function Add(a: byte, b: byte): byte {
    XorByte(a, b)
  }

  /** Product with the generator 2: one step of the table loop. */
  function Double(a: byte): byte {
    if a < 128 then 2 * a else DoubleOverflow(a); Xor(2 * a, PRIMITIVE)
  }

  lemma DoubleOverflow(a: byte)
    requires a >= 128
    ensures Xor(2 * a, PRIMITIVE) == Xor(2 * a - 256, 0x1d) < 256
  {
    assert Pow2(8) == 256;
    XorConcat(8, 1, 1, 2 * a - 256, 0x1d);
    XorSelf(1);
    XorBound(2 * a - 256, 0x1d, 8);
  }

  function Times(a: byte, b: nat): byte {
    if b == 0 then 0 else Add(if b % 2 == 1 then a else 0, Double(Times(a, b / 2)))
  }

  // ---------- addition ----------

  lemma AddLaws(a: byte, b: byte, c: byte)
    ensures Add(a, b) == Add(b, a)
    ensures Add(Add(a, b), c) == Add(a, Add(b, c))
    ensures Add(a, 0) == a && Add(0, a) == a
    ensures Add(a, a) == 0
  {
    hide Xor;
    XorComm(a, b);
    XorAssoc(a, b, c);
    XorZero(a);
    XorSelf(a);
  }

  lemma AddSwap(a: byte, b: byte, c: byte, d: byte)
    ensures Add(Add(a, b), Add(c, d)) == Add(Add(a, c), Add(b, d))
  {
    hide Add;
    AddLaws(a, b, Add(c, d));
    AddLaws(b, c, d);
    AddLaws(c, b, d);
    AddLaws(a, c, Add(b, d));
  }

  /** Every element is its own negative. */
  lemma AddCancel(a: byte, b: byte)
    ensures Add(a, Add(a, b)) == b
    ensures Add(a, b) == 0 <==> a == b
    ensures a != b ==> Add(a, b) != 0
  {
    hide Add;
    AddLaws(a, a, b);
    AddLaws(b, a, a);
    if Add(a, b) == 0 {
      AddLaws(a, b, b);
      AddLaws(b, b, b);
    }
  }

  // ---------- doubling ----------

  lemma DoubleAdd(a: byte, b: byte)
    ensures Double(Add(a, b)) == Add(Double(a), Double(b))
  {
    hide Xor;
    DoubleForm(a);
    DoubleForm(b);
    DoubleForm(Add(a, b));
    hide Double, Carry;
    CarryAdd(a, b);
    XorShuffle(2 * a, Carry(a), 2 * b, Carry(b));
    XorBit(a, b, 0, 0);
  }

  lemma CarryAdd(a: byte, b: byte)
    ensures Carry(Add(a, b)) == Xor(Carry(a), Carry(b))
  {
    hide Xor;
    TopBit(a, b);
    XorZero(0);
    XorZero(PRIMITIVE);
    XorSelf(PRIMITIVE);
  }

  function Carry(a: byte): nat {
    if a < 128 then 0 else PRIMITIVE
  }

  lemma DoubleForm(a: byte)
    ensures Double(a) == Xor(2 * a, Carry(a))
  {
    hide Xor;
    XorZero(2 * a);
  }

  lemma TopBit(a: byte, b: byte)
    ensures Add(a, b) >= 128 <==> (a >= 128) != (b >= 128)
  {
    assert Pow2(7) == 128;
    var ah, bh := if a < 128 then 0 else 1, if b < 128 then 0 else 1;
    XorConcat(7, ah, bh, a - 128 * ah, b - 128 * bh);
    XorBound(a - 128 * ah, b - 128 * bh, 7);
    XorSelf(ah);
    XorZero(1);
  }

  lemma XorShuffle(a: nat, b: nat, c: nat, d: nat)
    ensures Xor(Xor(a, b), Xor(c, d)) == Xor(Xor(a, c), Xor(b, d))
  {
    hide Xor;
    XorAssoc(a, b, Xor(c, d));
    XorAssoc(b, c, d);
    XorComm(b, c);
    XorAssoc(c, b, d);
    XorAssoc(a, c, Xor(b, d));
  }

  lemma DoubleIsZero(a: byte)
    requires Double(a) == 0
    ensures a == 0
  {
    if a >= 128 {
      XorIsZero(2 * a, PRIMITIVE);
    }
  }

  // ---------- multiplication ----------

  lemma {:induction false} TimesAddRight(a: byte, b: nat, c: nat)
    ensures Times(a, Xor(b, c)) == Add(Times(a, b), Times(a, c))
    decreases b + c
  {
    if b + c > 0 {
      TimesAddRight(a, b / 2, c / 2);
      TimesAddBit(a, b / 2, c / 2, b % 2, c % 2);
      assert b == 2 * (b / 2) + b % 2 && c == 2 * (c / 2) + c % 2;
    } else {
      AddLaws(0, 0, 0);
    }
  }

  lemma TimesAddBit(a: byte, b: nat, c: nat, r: nat, s: nat)
    requires r < 2 && s < 2 && Times(a, Xor(b, c)) == Add(Times(a, b), Times(a, c))
    ensures Times(a, Xor(2 * b + r, 2 * c + s)) == Add(Times(a, 2 * b + r), Times(a, 2 * c + s))
  {
    TimesBit(a, b, r);
    TimesBit(a, c, s);
    XorBit(b, c, r, s);
    TimesBit(a, Xor(b, c), Parity(r, s));
    SelectParity(a, r, s);
    hide *;
    var p, q := Times(a, b), Times(a, c);
    DoubleAdd(p, q);
    AddSwap(Select(r, a), Double(p), Select(s, a), Double(q));
  }

  lemma SelectParity(a: byte, r: nat, s: nat)
    requires r < 2 && s < 2
    ensures Select(Parity(r, s), a) == Add(Select(r, a), Select(s, a))
  {
    AddLaws(a, 0, 0);
    AddLaws(a, a, a);
    AddLaws(0, 0, 0);
    hide Add;
  }

  function Select(bit: nat, a: byte): byte {
    if bit == 1 then a else 0
  }

  lemma TimesBit(a: byte, b: nat, r: nat)
    requires r < 2
    ensures Times(a, 2 * b + r) == Add(Select(r, a), Double(Times(a, b)))
  {
    assert (2 * b + r) / 2 == b;
    if b == 0 {
      AddLaws(Select(r, a), 0, 0);
    }
  }

  lemma {:induction false} TimesAddLeft(a: byte, b: byte, c: nat)
    ensures Times(Add(a, b), c) == Add(Times(a, c), Times(b, c))
  {
    hide Add, Double;
    AddLaws(0, 0, 0);
    if c > 0 {
      TimesAddLeft(a, b, c / 2);
      var p, q := Times(a, c / 2), Times(b, c / 2);
      DoubleAdd(p, q);
      AddSwap(Select(c % 2, a), Double(p), Select(c % 2, b), Double(q));
    }
  }

  lemma {:induction false} TimesDoubleLeft(a: byte, b: nat)
    ensures Times(Double(a), b) == Double(Times(a, b))
  {
    if b > 0 {
      TimesDoubleLeft(a, b / 2);
      hide Add;
      DoubleAdd(Select(b % 2, a), Double(Times(a, b / 2)));
    }
  }

  lemma {:induction false} TimesOneLeft(b: byte)
    ensures Times(1, b) == b
  {
    if b > 0 {
      TimesOneLeft(b / 2);
      TimesBit(1, b / 2, b % 2);
      BitAndRest(b);
      hide Times, Add;
      assert Double(b / 2) == 2 * (b / 2);
    }
  }

  lemma BitAndRest(b: byte)
    ensures Add(b % 2, 2 * (b / 2)) == b
  {
    XorBit(0, b / 2, b % 2, 0);
    hide Xor;
    XorZero(b / 2);
  }

  lemma {:induction false} TimesZero(a: byte, b: nat)
    ensures Times(0, b) == 0 && Times(a, 0) == 0
  {
    hide Add;
    AddLaws(0, 0, 0);
    if b > 0 {
      TimesZero(a, b / 2);
    }
  }

  lemma {:induction false} TimesComm(a: byte, b: byte)
    ensures Times(a, b) == Times(b, a)
    decreases b
  {
    if b > 0 {
      var h: byte := b / 2;
      TimesComm(a, h);
      TimesBit(a, h, b % 2);
      TimesDoubleLeft(h, a);
      BitAndRest(b);
      TimesAddLeft(b % 2, 2 * h, a);
      TimesOneLeft(a);
      TimesZero(0, a);
      hide Times, Xor, Add;
    } else {
      TimesZero(a, a);
    }
  }

  lemma {:induction false} TimesAssoc(a: byte, b: byte, c: nat)
    ensures Times(Times(a, b), c) == Times(a, Times(b, c))
    decreases c
  {
    if c > 0 {
      TimesAssoc(a, b, c / 2);
      var q := Times(b, c / 2);
      TimesAddRight(a, Select(c % 2, b), Double(q));
      TimesComm(a, Double(q));
      TimesDoubleLeft(q, a);
      TimesComm(q, a);
      TimesZero(a, 0);
    } else {
      TimesZero(a, 0);
    }
  }

  // ---------- the reference: polynomials over GF(2) ----------

  /** Product of two polynomials over GF(2): schoolbook multiplication without carries. */
  function CarrylessProduct(a: nat, b: nat): nat {
    if b == 0 then 0 else Xor(if b % 2 == 1 then a else 0, 2 * CarrylessProduct(a, b / 2))
  }

  /** Remainder of a polynomial modulo 0x11d, most significant bit first. */
  function PolyMod(p: nat): byte {
    if p < 256 then p else Add(Double(PolyMod(p / 2)), p % 2)
  }

  lemma PolyModStep(p: nat, r: nat)
    requires r < 2
    ensures PolyMod(2 * p + r) == Add(Double(PolyMod(p)), r)
  {
    assert (2 * p + r) / 2 == p && (2 * p + r) % 2 == r;
    if 2 * p + r < 256 {
      XorBit(p, 0, 0, r);
      XorZero(p);
    }
  }

  lemma {:induction false} PolyModXor(p: nat, q: nat)
    ensures PolyMod(Xor(p, q)) == Add(PolyMod(p), PolyMod(q))
    decreases p + q
  {
    if p + q > 0 {
      PolyModXor(p / 2, q / 2);
      XorBit(p / 2, q / 2, p % 2, q % 2);
      PolyModStep(p / 2, p % 2);
      PolyModStep(q / 2, q % 2);
      PolyModStep(Xor(p / 2, q / 2), Parity(p % 2, q % 2));
      BitAdd(p % 2, q % 2);
      var x, y := PolyMod(p / 2), PolyMod(q / 2);
      hide PolyMod, Xor, Double, Add;
      DoubleAdd(x, y);
      AddSwap(Double(x), p % 2, Double(y), q % 2);
    } else {
      AddLaws(0, 0, 0);
    }
  }

  lemma BitAdd(r: nat, s: nat)
    requires r < 2 && s < 2
    ensures Add(r, s) == Parity(r, s)
  {
    XorBit(0, 0, r, s);
  }

  lemma {:induction false} PolyModDouble(p: nat)
    ensures PolyMod(2 * p) == Double(PolyMod(p))
  {
    PolyModStep(p, 0);
    AddLaws(Double(PolyMod(p)), 0, 0);
  }

  /** The field product is carry-less multiplication modulo 0x11d. */
  lemma {:induction false} TimesIsCarrylessProduct(a: byte, b: nat)
    ensures Times(a, b) == PolyMod(CarrylessProduct(a, b))
  {
    if b > 0 {
      TimesIsCarrylessProduct(a, b / 2);
      hide PolyMod, Xor, Double, Add;
      PolyModXor(Select(b % 2, a), 2 * CarrylessProduct(a, b / 2));
      PolyModDouble(CarrylessProduct(a, b / 2));
      PolyModSmall(Select(b % 2, a));
    }
  }

  lemma PolyModSmall(a: byte)
    ensures PolyMod(a) == a
  {
  }

  /** r is a remainder of p modulo 0x11d: they differ by a polynomial multiple of 0x11d. */
  ghost predicate IsRemainder(p: nat, r: byte) {
    exists q: nat :: p == Xor(CarrylessProduct(PRIMITIVE, q), r)
  }

  /** `PolyMod` is polynomial division with remainder: the remainder exists and is unique. */
  lemma PolyModIsRemainder(p: nat, r: byte)
    ensures IsRemainder(p, r) <==> r == PolyMod(p)
  {
    var q := Quotient(p);
    assert IsRemainder(p, PolyMod(p));
    if IsRemainder(p, r) {
      var q: nat :| p == Xor(CarrylessProduct(PRIMITIVE, q), r);
      hide Xor, PolyMod, Add;
      PolyModXor(CarrylessProduct(PRIMITIVE, q), r);
      MultiplesVanish(q);
      PolyModSmall(r);
      AddLaws(r, 0, 0);
    }
  }

  lemma {:induction false} MultiplesVanish(q: nat)
    ensures PolyMod(CarrylessProduct(PRIMITIVE, q)) == 0
  {
    if q > 0 {
      MultiplesVanish(q / 2);
      PolyModDouble(CarrylessProduct(PRIMITIVE, q / 2));
      PolyModXor(Pick(q % 2, PRIMITIVE), 2 * CarrylessProduct(PRIMITIVE, q / 2));
      PrimitiveVanishes();
      hide PolyMod, Xor;
      PolyModSmall(0);
      AddLaws(0, 0, 0);
    }
  }

  function Pick(bit: nat, p: nat): nat {
    if bit == 1 then p else 0
  }

  lemma PrimitiveVanishes()
    ensures PolyMod(PRIMITIVE) == 0
  {
    hide PolyMod, Double, Add, Xor;
    PolyModStep(142, 1);
    PolyModSmall(142);
    DoubleOctet(0, 1, 1, 1, 0);
    AddLaws(1, 1, 1);
  }

  lemma {:induction false} Quotient(p: nat) returns (q: nat)
    ensures p == Xor(CarrylessProduct(PRIMITIVE, q), PolyMod(p))
  {
    if p < 256 {
      q := 0;
      XorZero(p);
    } else {
      var q' := Quotient(p / 2);
      q := 2 * q' + if PolyMod(p / 2) < 128 then 0 else 1;
      QuotientStep(p, q');
    }
  }

  lemma QuotientStep(p: nat, q: nat)
    requires p >= 256 && p / 2 == Xor(CarrylessProduct(PRIMITIVE, q), PolyMod(p / 2))
    ensures p == Xor(CarrylessProduct(PRIMITIVE, 2 * q + if PolyMod(p / 2) < 128 then 0 else 1), PolyMod(p))
  {
    hide PolyMod, Xor, CarrylessProduct, Double;
    var r: nat, m: nat, b: nat := PolyMod(p / 2), CarrylessProduct(PRIMITIVE, q), p % 2;
    PolyModStep(p / 2, b);
    CarrylessBit(PRIMITIVE, q, if r < 128 then 0 else 1);
    DoubleForm(r);
    XorBit(m, r, 0, b);
    XorBit(r, 0, 0, b);
    XorZero(r);
    CancelShuffle(Carry(r), 2 * m, 2 * r, b);
  }

  lemma CarrylessBit(a: nat, b: nat, r: nat)
    requires r < 2
    ensures CarrylessProduct(a, 2 * b + r) == Xor(Pick(r, a), 2 * CarrylessProduct(a, b))
  {
    assert (2 * b + r) / 2 == b;
    hide Xor;
    XorZero(Pick(r, a));
  }

  lemma CancelShuffle(c: nat, m: nat, r: nat, b: nat)
    ensures Xor(Xor(c, m), Xor(Xor(r, c), b)) == Xor(m, Xor(r, b))
  {
    hide Xor;
    XorComm(c, m);
    XorComm(r, c);
    XorAssoc(c, r, b);
    XorAssoc(m, c, Xor(c, Xor(r, b)));
    XorAssoc(c, c, Xor(r, b));
    XorSelf(c);
    XorZero(Xor(r, b));
  }

  // ---------- powers of the generator ----------

  /** The i-th power of the generator 2. */
  function Alpha(i: nat): byte {
    if i == 0 then 1 else Double(Alpha(i - 1))
  }

  lemma {:induction false} AlphaAdd(i: nat, j: nat)
    ensures Alpha(i + j) == Times(Alpha(i), Alpha(j))
  {
    hide Double, Times;
    if i > 0 {
      AlphaAdd(i - 1, j);
      TimesDoubleLeft(Alpha(i - 1), Alpha(j));
    } else {
      TimesOneLeft(Alpha(j));
    }
  }

  lemma {:induction false} AlphaNonzero(i: nat)
    ensures Alpha(i) != 0
  {
    if i > 0 {
      AlphaNonzero(i - 1);
      if Alpha(i) == 0 {
        DoubleIsZero(Alpha(i - 1));
      }
    }
  }

  /** Doubling a byte with its top bit set flips bits 2, 3 and 4 of the shifted byte. */
  lemma DoubleOctet(h: nat, b3: nat, b2: nat, b1: nat, b0: nat)
    requires h < 8 && b3 < 2 && b2 < 2 && b1 < 2 && b0 < 2
    ensures Double(128 + 16 * h + 8 * b3 + 4 * b2 + 2 * b1 + b0)
         == 32 * h + 16 * (1 - b3) + 8 * (1 - b2) + 4 * (1 - b1) + 2 * b0 + 1
  {
    hide Xor;
    var c3 := 2 * h + b3;
    var c2 := 2 * c3 + b2;
    var c1 := 2 * c2 + b1;
    var c0 := 2 * c1 + b0;
    DoubleOverflow(128 + c0);
    XorZero(h);
    XorBit(h, 0, b3, 1);
    XorBit(c3, 1, b2, 1);
    XorBit(c2, 3, b1, 1);
    XorBit(c1, 7, b0, 0);
    XorBit(c0, 14, 0, 1);
  }

  lemma SmallPowers()
    ensures Alpha(3) == 8 && Alpha(4) == 16 && Alpha(7) == 128 && Alpha(12) == 205
    ensures Alpha(15) == 38 && Alpha(16) == 76 && Alpha(17) == 152 && Alpha(28) == 24
  {
    hide Xor;
    DoubleOctet(0, 0, 0, 0, 0);  // 128 -> 29
    DoubleOctet(6, 1, 0, 0, 0);  // 232 -> 205
    DoubleOctet(4, 1, 1, 0, 1);  // 205 -> 135
    DoubleOctet(0, 0, 1, 1, 1);  // 135 -> 19
    DoubleOctet(1, 1, 0, 0, 0);  // 152 -> 45
    DoubleOctet(3, 0, 1, 0, 0);  // 180 -> 117
    DoubleOctet(6, 1, 0, 1, 0);  // 234 -> 201
    DoubleOctet(4, 1, 0, 0, 1);  // 201 -> 143
    DoubleOctet(0, 1, 1, 1, 1);  // 143 -> 3
    assert Alpha(8) == 29;
    assert Alpha(12) == 205;
    assert Alpha(17) == 152;
    assert Alpha(21) == 117;
    assert Alpha(25) == 3;
  }

  lemma SquareAdd(a: byte, b: byte)
    ensures Times(Add(a, b), Add(a, b)) == Add(Times(a, a), Times(b, b))
  {
    hide Times, Xor;
    TimesAddLeft(a, b, Add(a, b));
    TimesAddRight(a, a, b);
    TimesAddRight(b, a, b);
    TimesComm(a, b);
    hide Add;
    var ab := Times(a, b);
    AddLaws(ab, Times(b, b), 0);
    AddSwap(Times(a, a), ab, Times(b, b), ab);
    AddLaws(ab, ab, ab);
    AddLaws(Add(Times(a, a), Times(b, b)), ab, ab);
  }

  lemma AlphaSquareAdd(i: nat, j: nat, k: nat)
    requires Alpha(i) == Add(Alpha(j), Alpha(k))
    ensures Alpha(2 * i) == Add(Alpha(2 * j), Alpha(2 * k))
  {
    hide Alpha, Add, Times, Xor;
    SquareAdd(Alpha(j), Alpha(k));
    AlphaSquare(i);
    AlphaSquare(j);
    AlphaSquare(k);
  }

  lemma AlphaSquare(i: nat)
    ensures Alpha(2 * i) == Times(Alpha(i), Alpha(i))
  {
    hide Alpha, Times;
    AlphaAdd(i, i);
    assert i + i == 2 * i;
  }

  /** The 17th power b of the generator satisfies b^4 = b + 1, so it generates GF(16). */
  lemma SubfieldRelation()
    ensures Alpha(68) == Add(Alpha(17), Alpha(0)) && Alpha(17) == 152 && Alpha(68) == 153
  {
    hide Alpha, Xor, Add;
    SmallPowers();
    SubfieldSums();
    AlphaAdd(17, 17);
    AlphaAdd(34, 34);
    SquareAdd(128, Add(16, 8));
    SquareAdd(16, 8);
    AlphaAdd(7, 7);
    AlphaAdd(4, 4);
    AlphaAdd(3, 3);
    SquareAdd(Alpha(14), Add(Alpha(8), Alpha(6)));
    SquareAdd(Alpha(8), Alpha(6));
    AlphaAdd(14, 14);
    AlphaAdd(8, 8);
    AlphaAdd(6, 6);
    AlphaZero();
  }

  lemma AlphaZero()
    ensures Alpha(0) == 1
  {
  }

  lemma SubfieldSums()
    ensures Add(128, Add(16, 8)) == 152
    ensures Add(24, Add(76, 205)) == 153
    ensures Add(152, 1) == 153
  {
    hide Xor;
    assert Pow2(4) == 16;
    XorConcat(4, 1, 0, 0, 8);
    XorConcat(4, 8, 1, 0, 8);
    XorConcat(4, 4, 12, 12, 13);
    XorConcat(4, 1, 8, 8, 1);
    XorConcat(4, 9, 0, 8, 1);
    NibbleSums();
  }

  lemma NibbleSums()
    ensures Xor(1, 0) == 1 && Xor(0, 8) == 8 && Xor(8, 1) == 9 && Xor(1, 8) == 9 && Xor(9, 0) == 9
    ensures Xor(4, 12) == 8 && Xor(12, 13) == 1
  {
    hide Xor;
    XorZero(1);
    XorZero(8);
    XorZero(9);
    XorZero(4);
    XorBit(4, 0, 0, 1);
    XorBit(0, 4, 1, 0);
    XorBit(6, 6, 0, 1);
    XorSelf(6);
    XorBit(2, 6, 0, 0);
    XorBit(1, 3, 0, 0);
    XorBit(0, 1, 1, 1);
  }

  lemma DoubleInjective(a: byte, b: byte)
    requires Double(a) == Double(b)
    ensures a == b
  {
    DoubleAdd(a, b);
    AddCancel(Double(a), Double(b));
    AddCancel(a, b);
    DoubleIsZero(Add(a, b));
  }

  lemma {:induction false} AlphaCancel(i: nat, j: nat, n: nat)
    requires Alpha(i + n) == Alpha(j + n)
    ensures Alpha(i) == Alpha(j)
  {
    if n > 0 {
      DoubleInjective(Alpha(i + n - 1), Alpha(j + n - 1));
      AlphaCancel(i, j, n - 1);
    }
  }

  /** The powers of the generator repeat after 255 steps, and after none of 15, 51, 85. */
  lemma AlphaPeriod()
    ensures Alpha(255) == 1 && Alpha(15) != 1 && Alpha(51) != 1 && Alpha(85) != 1
  {
    hide Alpha, Add, Times;
    AlphaZero();
    SmallPowers();
    SubfieldRelation();
    AlphaSquareAdd(68, 17, 0);
    AlphaSquareAdd(136, 34, 0);
    AddLaws(Alpha(17), 1, 1);
    AddLaws(1, 1, 1);
    assert Alpha(272) == Alpha(17);
    AlphaCancel(255, 0, 17);
    AlphaAdd(51, 17);
    TimesOneLeft(Alpha(17));
    FifthPower();
    SquareNotFourth();
  }

  /** b^5 = b^2 + b, which is 1 only if b^2 = b + 1 = b^4. */
  lemma FifthPower()
    requires Alpha(68) == Add(Alpha(17), 1)
    ensures Alpha(85) == 1 ==> Alpha(34) == Alpha(68)
  {
    hide Alpha, Add, Times;
    var b := Alpha(17);
    AlphaAdd(17, 68);
    AlphaAdd(17, 17);
    TimesAddRightByte(b, b, 1);
    TimesComm(b, 1);
    TimesOneLeft(b);
    AddLaws(Alpha(34), b, b);
    AddLaws(Alpha(34), 0, 0);
    AddLaws(b, b, b);
    AddLaws(1, b, 0);
  }

  lemma SquareNotFourth()
    requires Alpha(68) != 1
    ensures Alpha(34) != Alpha(68)
  {
    hide Alpha, Times;
    AlphaZero();
    if Alpha(34) == Alpha(68) {
      AlphaCancel(34, 0, 34);
    }
  }

  lemma TimesAddRightByte(a: byte, b: byte, c: byte)
    ensures Times(a, Add(b, c)) == Add(Times(a, b), Times(a, c))
  {
    TimesAddRight(a, b, c);
  }

  lemma {:induction false} AlphaMultiple(d: nat, q: nat)
    requires Alpha(d) == 1
    ensures Alpha(q * d) == 1
  {
    if q > 0 {
      AlphaMultiple(d, q - 1);
      assert q * d == d + (q - 1) * d;
      AlphaAdd(d, (q - 1) * d);
      TimesOneLeft(1);
    }
  }

  lemma FactorsOf255(d: nat, q: nat)
    requires d * q == 255 && d < 255
    ensures d in {1, 3, 5, 15, 17, 51, 85}
  {
    if d <= 16 {
      SmallFactor(d, q);
    } else {
      ProductBound(d, q);
      SmallFactor(q, d);
    }
  }

  lemma ProductBound(d: nat, q: nat)
    requires d >= 17
    ensures q >= 16 ==> d * q >= 272
  {
    if q >= 16 {
      assert d * q >= 17 * q;
    }
  }

  lemma SmallFactor(d: nat, q: nat)
    requires d * q == 255 && d <= 16
    ensures (d == 1 && q == 255) || (d == 3 && q == 85) || (d == 5 && q == 51) || (d == 15 && q == 17)
  {
    assert d == 0 || d == 1 || d == 2 || d == 3 || d == 4 || d == 5 || d == 6 || d == 7 || d == 8 || d == 9
        || d == 10 || d == 11 || d == 12 || d == 13 || d == 14 || d == 15 || d == 16;
  }

  /** The generator is primitive: its order is exactly 255. */
  lemma {:induction false} GeneratorIsPrimitive(d: nat)
    requires 0 < d <= 255
    ensures Alpha(d) == 1 <==> d == 255
    decreases d
  {
    hide Alpha;
    AlphaPeriod();
    forall e: nat | 0 < e < d ensures Alpha(e) != 1 {
      GeneratorIsPrimitive(e);
    }
    if d < 255 && Alpha(d) == 1 {
      LeastPeriodDivides(d);
      PeriodIsFull(d, 255 / d);
    }
  }

  lemma LeastPeriodDivides(d: nat)
    requires 0 < d < 255 && Alpha(d) == 1
    requires forall e: nat :: 0 < e < d ==> Alpha(e) != 1
    ensures d * (255 / d) == 255
  {
    hide Alpha, Times;
    AlphaPeriod();
    var q, r := 255 / d, 255 % d;
    AlphaMultiple(d, q);
    assert q * d + r == 255;
    AlphaAdd(q * d, r);
    TimesOneLeft(Alpha(r));
  }

  lemma PeriodIsFull(d: nat, q: nat)
    requires d * q == 255 && d < 255
    ensures Alpha(d) != 1
  {
    hide Alpha;
    FactorsOf255(d, q);
    AlphaPeriod();
    if Alpha(d) == 1 {
      if d == 1 { AlphaMultiple(1, 15); }
      else if d == 3 { AlphaMultiple(3, 5); }
      else if d == 5 { AlphaMultiple(5, 3); }
      else if d == 17 { AlphaMultiple(17, 3); }
    }
  }

  lemma AlphaDistinct(i: nat, j: nat)
    requires i < j < 255
    ensures Alpha(i) != Alpha(j)
  {
    hide Alpha;
    if Alpha(i) == Alpha(j) {
      AlphaZero();
      AlphaCancel(0, j - i, i);
      GeneratorIsPrimitive(j - i);
    }
  }

  function Powers(n: nat): set<int> {
    set i: nat | i < n :: Alpha(i)
  }

  lemma {:induction false} PowersCount(n: nat)
    requires n <= 255
    ensures |Powers(n)| == n
  {
    hide Alpha;
    if n > 0 {
      PowersCount(n - 1);
      forall i: nat | i < n - 1 ensures Alpha(i) != Alpha(n - 1) {
        AlphaDistinct(i, n - 1);
      }
      assert Powers(n) == Powers(n - 1) + {Alpha(n - 1)};
    }
  }

  lemma PowerExists(x: byte)
    requires x != 0
    ensures exists i: nat :: i < 255 && Alpha(i) == x
  {
    hide Alpha;
    PowersCount(255);
    IntervalSize(1, 256);
    forall y | y in Powers(255) ensures y in Interval(1, 256) {
      var i: nat :| i < 255 && Alpha(i) == y;
      AlphaNonzero(i);
    }
    SubsetSize(Powers(255), Interval(1, 256));
    assert x in Interval(1, 256);
  }

  /** Every nonzero byte is exactly one of the first 255 powers of the generator. */
  lemma LogExists(x: byte)
    requires x != 0
    ensures exists i: nat :: i < 255 && Alpha(i) == x && forall j: nat :: j < 255 && Alpha(j) == x ==> j == i
  {
    hide Alpha;
    var i := Log(x);
    assert Alpha(i) == x;
  }

  /** The discrete logarithm to base 2. */
  ghost function Log(x: byte): (i: nat)
    requires x != 0
    ensures i < 255 && Alpha(i) == x
    ensures forall j: nat :: j < 255 && Alpha(j) == x ==> j == i
  {
    PowerExists(x);
    var i: nat :| i < 255 && Alpha(i) == x;
    assert forall j: nat :: j < 255 && Alpha(j) == x ==> j == i by {
      forall j: nat | j < 255 && Alpha(j) == x ensures j == i {
        if j < i { AlphaDistinct(j, i); }
        if i < j { AlphaDistinct(i, j); }
      }
    }
    i
  }

  ghost function Inverse(a: byte): (b: byte)
    requires a != 0
    ensures Times(a, b) == 1 && Times(b, a) == 1
    ensures b != 0
  {
    hide Alpha, Times;
    AlphaAdd(Log(a), 255 - Log(a));
    AlphaPeriod();
    TimesComm(a, Alpha(255 - Log(a)));
    AlphaNonzero(255 - Log(a));
    Alpha(255 - Log(a))
  }

  // ---------- the laws of a field, for the linear algebra ----------

  lemma TimesLaws(a: byte, b: byte, c: byte)
    ensures Times(a, b) == Times(b, a)
    ensures Times(Times(a, b), c) == Times(a, Times(b, c))
    ensures Times(a, Add(b, c)) == Add(Times(a, b), Times(a, c))
    ensures Times(Add(a, b), c) == Add(Times(a, c), Times(b, c))
    ensures Times(a, 1) == a && Times(1, a) == a
    ensures Times(a, 0) == 0 && Times(0, a) == 0
  {
    hide Times;
    TimesComm(a, b);
    TimesComm(a, 1);
    TimesAssoc(a, b, c);
    TimesAddRightByte(a, b, c);
    TimesAddLeft(a, b, c);
    TimesOneLeft(a);
    TimesZero(a, a);
  }

  lemma NoZeroDivisors(a: byte, b: byte)
    requires Times(a, b) == 0
    ensures a == 0 || b == 0
  {
    hide Times;
    if a != 0 {
      TimesLaws(Inverse(a), a, b);
      TimesLaws(b, 0, 0);
      TimesLaws(Inverse(a), 0, 0);
    }
  }
}
