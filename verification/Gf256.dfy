/** Arithmetic of the field GF(2^8) and the column mixing of AES over it (sections 4.2, 4.3,
    5.1.3 and 5.3.3 of FIPS 197). */
module Gf256 {
  type Byte = bv8

  /** Addition in the field. */
  function Add(a: Byte, b: Byte): Byte { a ^ b }

  function Sum(a: Byte, b: Byte, c: Byte, d: Byte): Byte { Add(Add(a, b), Add(c, d)) }

  /** Multiplication by x, reduced by x^8 + x^4 + x^3 + x + 1. */
  function GfMul2(x: Byte): Byte {
    var r := (x as bv16) << 1;
    if r & 0x100 != 0 then ((r ^ 0x11B) & 0xFF) as Byte else (r & 0xFF) as Byte
  }

  function GfMul3(x: Byte): Byte { Add(GfMul2(x), x) }
  function GfMul9(x: Byte): Byte { Add(GfMul2(GfMul2(GfMul2(x))), x) }
  function GfMul11(x: Byte): Byte { Add(GfMul2(Add(GfMul2(GfMul2(x)), x)), x) }
  function GfMul13(x: Byte): Byte { Add(GfMul2(GfMul2(Add(GfMul2(x), x))), x) }
  function GfMul14(x: Byte): Byte { GfMul2(Add(GfMul2(Add(GfMul2(x), x)), x)) }

  // ---- the field product ----------------------------------------------------------------

  /** The product of two polynomials over GF(2). */
  function Polynomial(a: Byte, b: Byte): bv16 {
    var w := a as bv16;
    (if b & 0x01 != 0 then w else 0) ^ (if b & 0x02 != 0 then w << 1 else 0)
    ^ (if b & 0x04 != 0 then w << 2 else 0) ^ (if b & 0x08 != 0 then w << 3 else 0)
    ^ (if b & 0x10 != 0 then w << 4 else 0) ^ (if b & 0x20 != 0 then w << 5 else 0)
    ^ (if b & 0x40 != 0 then w << 6 else 0) ^ (if b & 0x80 != 0 then w << 7 else 0)
  }

  function ReduceBit(p: bv16, n: bv16): bv16
    requires n <= 6
  {
    if p & (0x100 << n) != 0 then p ^ (0x11B << n) else p
  }

  /** The remainder modulo x^8 + x^4 + x^3 + x + 1. */
  function Reduce(p: bv16): Byte {
    (ReduceBit(ReduceBit(ReduceBit(ReduceBit(ReduceBit(ReduceBit(ReduceBit(p, 6), 5), 4), 3), 2), 1), 0) & 0xFF) as Byte
  }

  function GfProduct(a: Byte, b: Byte): Byte {
    Reduce(Polynomial(a, b))
  }

  /** The chained doublings are the field products they stand for. */
  lemma ChainsAreProducts(x: Byte)
    ensures GfMul2(x) == GfProduct(x, 2) && GfMul3(x) == GfProduct(x, 3)
    ensures GfMul9(x) == GfProduct(x, 9) && GfMul11(x) == GfProduct(x, 11)
    ensures GfMul13(x) == GfProduct(x, 13) && GfMul14(x) == GfProduct(x, 14)
  {
    hide GfMul2, GfMul3, GfMul9, GfMul11, GfMul13, GfMul14, GfProduct;
    Product23(x);
    Product9(x);
    Product11(x);
    Product13(x);
    Product14(x);
  }

  lemma Product23(x: Byte)
    ensures GfMul2(x) == GfProduct(x, 2) && GfMul3(x) == GfProduct(x, 3)
  {
  }

  lemma Product9(x: Byte)
    ensures GfMul9(x) == GfProduct(x, 9)
  {
  }

  lemma Product11(x: Byte)
    ensures GfMul11(x) == GfProduct(x, 11)
  {
  }

  lemma Product13(x: Byte)
    ensures GfMul13(x) == GfProduct(x, 13)
  {
  }

  lemma Product14(x: Byte)
    ensures GfMul14(x) == GfProduct(x, 14)
  {
  }

  // ---- linearity ---------------------------------------------------------------------------

  lemma Commutes(a: Byte, b: Byte)
    ensures Add(a, b) == Add(b, a)
  {
  }

  lemma Associates(a: Byte, b: Byte, c: Byte)
    ensures Add(Add(a, b), c) == Add(a, Add(b, c))
  {
  }

  lemma Medial(a: Byte, b: Byte, c: Byte, d: Byte)
    ensures Add(Add(a, b), Add(c, d)) == Add(Add(a, c), Add(b, d))
  {
    hide Add;
    Associates(a, b, Add(c, d));
    Associates(b, c, d);
    Commutes(b, c);
    Associates(c, b, d);
    Associates(a, c, Add(b, d));
  }

  /** Doubling is linear. */
  lemma Linear(a: Byte, b: Byte)
    ensures GfMul2(Add(a, b)) == Add(GfMul2(a), GfMul2(b))
  {
    if a & 0x80 != 0 {
      if b & 0x80 != 0 {} else {}
    } else {
      if b & 0x80 != 0 {} else {}
    }
  }

  lemma Linear2(a: Byte, b: Byte)
    ensures GfMul2(GfMul2(Add(a, b))) == Add(GfMul2(GfMul2(a)), GfMul2(GfMul2(b)))
  {
    hide GfMul2, Add;
    Linear(a, b);
    Linear(GfMul2(a), GfMul2(b));
  }

  lemma Additive3(a: Byte, b: Byte)
    ensures GfMul3(Add(a, b)) == Add(GfMul3(a), GfMul3(b))
  {
    hide GfMul2, Add;
    Linear(a, b);
    Medial(GfMul2(a), GfMul2(b), a, b);
  }

  lemma Additive9(a: Byte, b: Byte)
    ensures GfMul9(Add(a, b)) == Add(GfMul9(a), GfMul9(b))
  {
    hide GfMul2, Add;
    Linear2(a, b);
    Linear(GfMul2(GfMul2(a)), GfMul2(GfMul2(b)));
    Medial(GfMul2(GfMul2(GfMul2(a))), GfMul2(GfMul2(GfMul2(b))), a, b);
  }

  lemma Additive11(a: Byte, b: Byte)
    ensures GfMul11(Add(a, b)) == Add(GfMul11(a), GfMul11(b))
  {
    hide GfMul2, Add;
    Linear2(a, b);
    var p, q := GfMul2(GfMul2(a)), GfMul2(GfMul2(b));
    Medial(p, q, a, b);
    Linear(Add(p, a), Add(q, b));
    Medial(GfMul2(Add(p, a)), GfMul2(Add(q, b)), a, b);
  }

  lemma Additive13(a: Byte, b: Byte)
    ensures GfMul13(Add(a, b)) == Add(GfMul13(a), GfMul13(b))
  {
    hide GfMul2, Add;
    Linear(a, b);
    Medial(GfMul2(a), GfMul2(b), a, b);
    var p, q := Add(GfMul2(a), a), Add(GfMul2(b), b);
    Linear2(p, q);
    Medial(GfMul2(GfMul2(p)), GfMul2(GfMul2(q)), a, b);
  }

  lemma Additive14(a: Byte, b: Byte)
    ensures GfMul14(Add(a, b)) == Add(GfMul14(a), GfMul14(b))
  {
    hide GfMul2, Add;
    Linear(a, b);
    Medial(GfMul2(a), GfMul2(b), a, b);
    var p, q := Add(GfMul2(a), a), Add(GfMul2(b), b);
    Linear(p, q);
    Medial(GfMul2(p), GfMul2(q), a, b);
    Linear(Add(GfMul2(p), a), Add(GfMul2(q), b));
  }

  lemma Four2(a: Byte, b: Byte, c: Byte, d: Byte)
    ensures GfMul2(Sum(a, b, c, d)) == Sum(GfMul2(a), GfMul2(b), GfMul2(c), GfMul2(d))
  {
    hide GfMul2, GfMul3, GfMul9, GfMul11, GfMul13, GfMul14, Add;
    Linear(Add(a, b), Add(c, d));
    Linear(a, b);
    Linear(c, d);
  }

  lemma Four3(a: Byte, b: Byte, c: Byte, d: Byte)
    ensures GfMul3(Sum(a, b, c, d)) == Sum(GfMul3(a), GfMul3(b), GfMul3(c), GfMul3(d))
  {
    hide GfMul2, GfMul3, GfMul9, GfMul11, GfMul13, GfMul14, Add;
    Additive3(Add(a, b), Add(c, d));
    Additive3(a, b);
    Additive3(c, d);
  }

  lemma Four9(a: Byte, b: Byte, c: Byte, d: Byte)
    ensures GfMul9(Sum(a, b, c, d)) == Sum(GfMul9(a), GfMul9(b), GfMul9(c), GfMul9(d))
  {
    hide GfMul2, GfMul3, GfMul9, GfMul11, GfMul13, GfMul14, Add;
    Additive9(Add(a, b), Add(c, d));
    Additive9(a, b);
    Additive9(c, d);
  }

  lemma Four11(a: Byte, b: Byte, c: Byte, d: Byte)
    ensures GfMul11(Sum(a, b, c, d)) == Sum(GfMul11(a), GfMul11(b), GfMul11(c), GfMul11(d))
  {
    hide GfMul2, GfMul3, GfMul9, GfMul11, GfMul13, GfMul14, Add;
    Additive11(Add(a, b), Add(c, d));
    Additive11(a, b);
    Additive11(c, d);
  }

  lemma Four13(a: Byte, b: Byte, c: Byte, d: Byte)
    ensures GfMul13(Sum(a, b, c, d)) == Sum(GfMul13(a), GfMul13(b), GfMul13(c), GfMul13(d))
  {
    hide GfMul2, GfMul3, GfMul9, GfMul11, GfMul13, GfMul14, Add;
    Additive13(Add(a, b), Add(c, d));
    Additive13(a, b);
    Additive13(c, d);
  }

  lemma Four14(a: Byte, b: Byte, c: Byte, d: Byte)
    ensures GfMul14(Sum(a, b, c, d)) == Sum(GfMul14(a), GfMul14(b), GfMul14(c), GfMul14(d))
  {
    hide GfMul2, GfMul3, GfMul9, GfMul11, GfMul13, GfMul14, Add;
    Additive14(Add(a, b), Add(c, d));
    Additive14(a, b);
    Additive14(c, d);
  }

  // ---- multiples by polynomials of degree up to four ------------------------------------------

  function Bit(m: Byte, k: Byte, v: Byte): Byte {
    if m & k != 0 then v else 0
  }

  /** The polynomial `m` times `x`, unreduced doublings added up. */
  function Times(m: Byte, x: Byte): Byte {
    var x2 := GfMul2(x);
    var x4 := GfMul2(x2);
    var x8 := GfMul2(x4);
    Add(Sum(Bit(m, 1, x), Bit(m, 2, x2), Bit(m, 4, x4), Bit(m, 8, x8)), Bit(m, 16, GfMul2(x8)))
  }

  lemma AddZero(a: Byte)
    ensures Add(a, 0) == a && Add(0, a) == a && Add(a, a) == 0
  {
  }

  lemma BitAdd(m: Byte, n: Byte, k: Byte, v: Byte)
    requires k == 1 || k == 2 || k == 4 || k == 8 || k == 16
    ensures Add(Bit(m, k, v), Bit(n, k, v)) == Bit(m ^ n, k, v)
  {
    hide Add;
    AddZero(v);
    AddZero(0);
    if m & k != 0 {
      if n & k != 0 {} else {}
    } else {
      if n & k != 0 {} else {}
    }
  }

  lemma TimesAdd(m: Byte, n: Byte, x: Byte)
    ensures Add(Times(m, x), Times(n, x)) == Times(m ^ n, x)
  {
    hide Add, Bit, GfMul2;
    var x2 := GfMul2(x);
    var x4 := GfMul2(x2);
    var x8 := GfMul2(x4);
    var x16 := GfMul2(x8);
    BitAdd(m, n, 1, x);
    BitAdd(m, n, 2, x2);
    BitAdd(m, n, 4, x4);
    BitAdd(m, n, 8, x8);
    BitAdd(m, n, 16, x16);
    var s := Sum(Bit(m, 1, x), Bit(m, 2, x2), Bit(m, 4, x4), Bit(m, 8, x8));
    var t := Sum(Bit(n, 1, x), Bit(n, 2, x2), Bit(n, 4, x4), Bit(n, 8, x8));
    Medial(s, Bit(m, 16, x16), t, Bit(n, 16, x16));
    TwoRows(Bit(m, 1, x), Bit(m, 2, x2), Bit(m, 4, x4), Bit(m, 8, x8), Bit(n, 1, x), Bit(n, 2, x2), Bit(n, 4, x4), Bit(n, 8, x8));
  }

  lemma TimesPowers(x: Byte)
    ensures Times(0, x) == 0 && Times(1, x) == x && Times(2, x) == GfMul2(x) && Times(4, x) == GfMul2(GfMul2(x))
    ensures Times(8, x) == GfMul2(GfMul2(GfMul2(x))) && Times(16, x) == GfMul2(GfMul2(GfMul2(GfMul2(x))))
  {
    hide GfMul2, Add;
    var x2 := GfMul2(x);
    var x4 := GfMul2(x2);
    var x8 := GfMul2(x4);
    AddZero(0);
    AddZero(x);
    AddZero(x2);
    AddZero(x4);
    AddZero(x8);
    AddZero(GfMul2(x8));
  }

  lemma ZeroDoubles()
    ensures GfMul2(0) == 0
  {
  }

  lemma BitDoubles(m: Byte, n: Byte, j: Byte, k: Byte, v: Byte)
    requires (m & j != 0) == (n & k != 0)
    ensures GfMul2(Bit(m, j, v)) == Bit(n, k, GfMul2(v))
  {
    hide GfMul2;
    ZeroDoubles();
  }

  /** Doubling shifts the polynomial. */
  lemma TimesDoubles(m: Byte, x: Byte)
    requires m < 16
    ensures GfMul2(Times(m, x)) == Times(m << 1, x)
  {
    TopBitClear(m);
    Doubling(m, m << 1, x);
  }

  lemma TopBitClear(m: Byte)
    requires m < 16
    ensures m & 16 == 0 && (m << 1) & 1 == 0
    ensures (m & 1 != 0) == ((m << 1) & 2 != 0) && (m & 2 != 0) == ((m << 1) & 4 != 0)
    ensures (m & 4 != 0) == ((m << 1) & 8 != 0) && (m & 8 != 0) == ((m << 1) & 16 != 0)
  {
  }

  lemma Doubling(m: Byte, n: Byte, x: Byte)
    requires m & 16 == 0 && n & 1 == 0
    requires (m & 1 != 0) == (n & 2 != 0) && (m & 2 != 0) == (n & 4 != 0)
    requires (m & 4 != 0) == (n & 8 != 0) && (m & 8 != 0) == (n & 16 != 0)
    ensures GfMul2(Times(m, x)) == Times(n, x)
  {
    hide GfMul2, Add, Bit;
    var x2 := GfMul2(x);
    var x4 := GfMul2(x2);
    var x8 := GfMul2(x4);
    BitDoubles(m, n, 1, 2, x);
    BitDoubles(m, n, 2, 4, x2);
    BitDoubles(m, n, 4, 8, x4);
    BitDoubles(m, n, 8, 16, x8);
    NoBit(m, 16, GfMul2(x8));
    NoBit(n, 1, x);
    var s := Sum(Bit(m, 1, x), Bit(m, 2, x2), Bit(m, 4, x4), Bit(m, 8, x8));
    AddZero(s);
    Four2(Bit(m, 1, x), Bit(m, 2, x2), Bit(m, 4, x4), Bit(m, 8, x8));
    ShiftUp(Bit(n, 2, x2), Bit(n, 4, x4), Bit(n, 8, x8), Bit(n, 16, GfMul2(x8)));
  }

  lemma NoBit(m: Byte, k: Byte, v: Byte)
    requires m & k == 0
    ensures Bit(m, k, v) == 0
  {
  }

  lemma ShiftUp(a: Byte, b: Byte, c: Byte, d: Byte)
    ensures Sum(a, b, c, d) == Add(Sum(0, a, b, c), d)
  {
    hide Add;
    AddZero(a);
    Associates(Add(a, b), c, d);
    Associates(a, b, c);
  }

  lemma Shifts(m: Byte)
    requires m < 4
    ensures m < 16 && m << 1 < 16 && m << 2 < 16 && (m << 2) ^ m < 16 && (m << 1) ^ m < 16
    ensures ((m << 1) ^ m) << 1 < 16 && (((m << 1) ^ m) << 1) ^ m < 16
    ensures (m << 1) << 1 == m << 2 && (m << 2) << 1 == m << 3
  {
  }

  /** The multipliers on a multiple are products of the polynomials. */
  lemma Nine(m: Byte, x: Byte)
    requires m < 4
    ensures GfMul9(Times(m, x)) == Times((m << 3) ^ m, x)
  {
    hide Times, GfMul2, Add;
    Shifts(m);
    TimesDoubles(m, x);
    TimesDoubles(m << 1, x);
    TimesDoubles(m << 2, x);
    TimesAdd(m << 3, m, x);
  }

  lemma Eleven(m: Byte, x: Byte)
    requires m < 4
    ensures GfMul11(Times(m, x)) == Times((((m << 2) ^ m) << 1) ^ m, x)
  {
    hide Times, GfMul2, Add;
    Shifts(m);
    TimesDoubles(m, x);
    TimesDoubles(m << 1, x);
    TimesAdd(m << 2, m, x);
    TimesDoubles((m << 2) ^ m, x);
    TimesAdd(((m << 2) ^ m) << 1, m, x);
  }

  lemma Thirteen(m: Byte, x: Byte)
    requires m < 4
    ensures GfMul13(Times(m, x)) == Times(((((m << 1) ^ m) << 1) << 1) ^ m, x)
  {
    hide Times, GfMul2, Add;
    Shifts(m);
    TimesDoubles(m, x);
    TimesAdd(m << 1, m, x);
    TimesDoubles((m << 1) ^ m, x);
    TimesDoubles(((m << 1) ^ m) << 1, x);
    TimesAdd((((m << 1) ^ m) << 1) << 1, m, x);
  }

  lemma Fourteen(m: Byte, x: Byte)
    requires m < 4
    ensures GfMul14(Times(m, x)) == Times(((((m << 1) ^ m) << 1) ^ m) << 1, x)
  {
    hide Times, GfMul2, Add;
    Shifts(m);
    TimesDoubles(m, x);
    TimesAdd(m << 1, m, x);
    TimesDoubles((m << 1) ^ m, x);
    TimesAdd(((m << 1) ^ m) << 1, m, x);
    TimesDoubles((((m << 1) ^ m) << 1) ^ m, x);
  }

  lemma Three(m: Byte, x: Byte)
    requires m < 16
    ensures GfMul3(Times(m, x)) == Times((m << 1) ^ m, x)
  {
    hide Times, GfMul2, Add;
    TimesDoubles(m, x);
    TimesAdd(m << 1, m, x);
  }

  // ---- the two mixing matrices are inverse ------------------------------------------------------

  lemma EntryInv0(b: Byte)
    ensures Sum(GfMul14(GfMul2(b)), GfMul11(b), GfMul13(b), GfMul9(GfMul3(b))) == b
  {
    hide Times, GfMul2, GfMul3, GfMul9, GfMul11, GfMul13, GfMul14, Add;
    TimesPowers(b);
    Three(1, b);
    Fourteen(2, b);
    Eleven(1, b);
    Thirteen(1, b);
    Nine(3, b);
    TimesAdd(28, 11, b);
    TimesAdd(13, 27, b);
    TimesAdd(23, 22, b);
  }

  lemma EntryInv1(b: Byte)
    ensures Sum(GfMul14(GfMul3(b)), GfMul11(GfMul2(b)), GfMul13(b), GfMul9(b)) == 0
  {
    hide Times, GfMul2, GfMul3, GfMul9, GfMul11, GfMul13, GfMul14, Add;
    TimesPowers(b);
    Three(1, b);
    Fourteen(3, b);
    Eleven(2, b);
    Thirteen(1, b);
    Nine(1, b);
    TimesAdd(18, 22, b);
    TimesAdd(13, 9, b);
    TimesAdd(4, 4, b);
  }

  lemma EntryInv2(b: Byte)
    ensures Sum(GfMul14(b), GfMul11(GfMul3(b)), GfMul13(GfMul2(b)), GfMul9(b)) == 0
  {
    hide Times, GfMul2, GfMul3, GfMul9, GfMul11, GfMul13, GfMul14, Add;
    TimesPowers(b);
    Three(1, b);
    Fourteen(1, b);
    Eleven(3, b);
    Thirteen(2, b);
    Nine(1, b);
    TimesAdd(14, 29, b);
    TimesAdd(26, 9, b);
    TimesAdd(19, 19, b);
  }

  lemma EntryInv3(b: Byte)
    ensures Sum(GfMul14(b), GfMul11(b), GfMul13(GfMul3(b)), GfMul9(GfMul2(b))) == 0
  {
    hide Times, GfMul2, GfMul3, GfMul9, GfMul11, GfMul13, GfMul14, Add;
    TimesPowers(b);
    Three(1, b);
    Fourteen(1, b);
    Eleven(1, b);
    Thirteen(3, b);
    Nine(2, b);
    TimesAdd(14, 11, b);
    TimesAdd(23, 18, b);
    TimesAdd(5, 5, b);
  }

  lemma EntryMix0(b: Byte)
    ensures Sum(GfMul2(GfMul14(b)), GfMul3(GfMul9(b)), GfMul13(b), GfMul11(b)) == b
  {
    hide Times, GfMul2, GfMul3, GfMul9, GfMul11, GfMul13, GfMul14, Add;
    TimesPowers(b);
    Fourteen(1, b);
    Nine(1, b);
    Thirteen(1, b);
    Eleven(1, b);
    TimesDoubles(14, b);
    Three(9, b);
    TimesAdd(28, 27, b);
    TimesAdd(13, 11, b);
    TimesAdd(7, 6, b);
  }

  lemma EntryMix1(b: Byte)
    ensures Sum(GfMul2(GfMul11(b)), GfMul3(GfMul14(b)), GfMul9(b), GfMul13(b)) == 0
  {
    hide Times, GfMul2, GfMul3, GfMul9, GfMul11, GfMul13, GfMul14, Add;
    TimesPowers(b);
    Eleven(1, b);
    Fourteen(1, b);
    Nine(1, b);
    Thirteen(1, b);
    TimesDoubles(11, b);
    Three(14, b);
    TimesAdd(22, 18, b);
    TimesAdd(9, 13, b);
    TimesAdd(4, 4, b);
  }

  lemma EntryMix2(b: Byte)
    ensures Sum(GfMul2(GfMul13(b)), GfMul3(GfMul11(b)), GfMul14(b), GfMul9(b)) == 0
  {
    hide Times, GfMul2, GfMul3, GfMul9, GfMul11, GfMul13, GfMul14, Add;
    TimesPowers(b);
    Thirteen(1, b);
    Eleven(1, b);
    Fourteen(1, b);
    Nine(1, b);
    TimesDoubles(13, b);
    Three(11, b);
    TimesAdd(26, 29, b);
    TimesAdd(14, 9, b);
    TimesAdd(7, 7, b);
  }

  lemma EntryMix3(b: Byte)
    ensures Sum(GfMul2(GfMul9(b)), GfMul3(GfMul13(b)), GfMul11(b), GfMul14(b)) == 0
  {
    hide Times, GfMul2, GfMul3, GfMul9, GfMul11, GfMul13, GfMul14, Add;
    TimesPowers(b);
    Nine(1, b);
    Thirteen(1, b);
    Eleven(1, b);
    Fourteen(1, b);
    TimesDoubles(9, b);
    Three(13, b);
    TimesAdd(18, 23, b);
    TimesAdd(11, 14, b);
    TimesAdd(5, 5, b);
  }

  /** Four sums of four, added up column by column instead. */
  lemma Transpose(a0: Byte, b0: Byte, c0: Byte, d0: Byte, a1: Byte, b1: Byte, c1: Byte, d1: Byte,
                  a2: Byte, b2: Byte, c2: Byte, d2: Byte, a3: Byte, b3: Byte, c3: Byte, d3: Byte)
    ensures Sum(Sum(a0, b0, c0, d0), Sum(a1, b1, c1, d1), Sum(a2, b2, c2, d2), Sum(a3, b3, c3, d3))
         == Sum(Sum(a0, a1, a2, a3), Sum(b0, b1, b2, b3), Sum(c0, c1, c2, c3), Sum(d0, d1, d2, d3))
  {
    hide Add;
    TwoRows(a0, b0, c0, d0, a1, b1, c1, d1);
    TwoRows(a2, b2, c2, d2, a3, b3, c3, d3);
    TwoRows(Add(a0, a1), Add(b0, b1), Add(c0, c1), Add(d0, d1), Add(a2, a3), Add(b2, b3), Add(c2, c3), Add(d2, d3));
  }

  lemma TwoRows(a: Byte, b: Byte, c: Byte, d: Byte, e: Byte, f: Byte, g: Byte, h: Byte)
    ensures Add(Sum(a, b, c, d), Sum(e, f, g, h)) == Sum(Add(a, e), Add(b, f), Add(c, g), Add(d, h))
  {
    hide Add;
    Medial(Add(a, b), Add(c, d), Add(e, f), Add(g, h));
    Medial(a, b, e, f);
    Medial(c, d, g, h);
  }

  lemma SumZeros(a: Byte)
    ensures Sum(a, 0, 0, 0) == a
  {
  }

  datatype Column = Column(s0: Byte, s1: Byte, s2: Byte, s3: Byte)

  function MixColumn(c: Column): Column {
    Column(Sum(GfMul2(c.s0), GfMul3(c.s1), c.s2, c.s3),
           Sum(c.s0, GfMul2(c.s1), GfMul3(c.s2), c.s3),
           Sum(c.s0, c.s1, GfMul2(c.s2), GfMul3(c.s3)),
           Sum(GfMul3(c.s0), c.s1, c.s2, GfMul2(c.s3)))
  }

  function InvMixColumn(c: Column): Column {
    Column(Sum(GfMul14(c.s0), GfMul11(c.s1), GfMul13(c.s2), GfMul9(c.s3)),
           Sum(GfMul9(c.s0), GfMul14(c.s1), GfMul11(c.s2), GfMul13(c.s3)),
           Sum(GfMul13(c.s0), GfMul9(c.s1), GfMul14(c.s2), GfMul11(c.s3)),
           Sum(GfMul11(c.s0), GfMul13(c.s1), GfMul9(c.s2), GfMul14(c.s3)))
  }

  /** One output byte of the inverse mix of a mixed column. */
  lemma InvRow(a: Byte, b: Byte, c: Byte, d: Byte)
    ensures Sum(GfMul14(Sum(GfMul2(a), GfMul3(b), c, d)), GfMul11(Sum(a, GfMul2(b), GfMul3(c), d)),
                GfMul13(Sum(a, b, GfMul2(c), GfMul3(d))), GfMul9(Sum(GfMul3(a), b, c, GfMul2(d)))) == a
  {
    hide *;
    Four14(GfMul2(a), GfMul3(b), c, d);
    Four11(a, GfMul2(b), GfMul3(c), d);
    Four13(a, b, GfMul2(c), GfMul3(d));
    Four9(GfMul3(a), b, c, GfMul2(d));
    EntryInv0(a);
    EntryInv1(b);
    EntryInv2(c);
    EntryInv3(d);
    Transpose(GfMul14(GfMul2(a)), GfMul14(GfMul3(b)), GfMul14(c), GfMul14(d),
              GfMul11(a), GfMul11(GfMul2(b)), GfMul11(GfMul3(c)), GfMul11(d),
              GfMul13(a), GfMul13(b), GfMul13(GfMul2(c)), GfMul13(GfMul3(d)),
              GfMul9(GfMul3(a)), GfMul9(b), GfMul9(c), GfMul9(GfMul2(d)));
    SumZeros(a);
  }

  /** One output byte of the mix of an inversely mixed column. */
  lemma MixRow(a: Byte, b: Byte, c: Byte, d: Byte)
    ensures Sum(GfMul2(Sum(GfMul14(a), GfMul11(b), GfMul13(c), GfMul9(d))), GfMul3(Sum(GfMul9(a), GfMul14(b), GfMul11(c), GfMul13(d))),
                Sum(GfMul13(a), GfMul9(b), GfMul14(c), GfMul11(d)), Sum(GfMul11(a), GfMul13(b), GfMul9(c), GfMul14(d))) == a
  {
    hide *;
    Four2(GfMul14(a), GfMul11(b), GfMul13(c), GfMul9(d));
    Four3(GfMul9(a), GfMul14(b), GfMul11(c), GfMul13(d));
    EntryMix0(a);
    EntryMix1(b);
    EntryMix2(c);
    EntryMix3(d);
    Transpose(GfMul2(GfMul14(a)), GfMul2(GfMul11(b)), GfMul2(GfMul13(c)), GfMul2(GfMul9(d)),
              GfMul3(GfMul9(a)), GfMul3(GfMul14(b)), GfMul3(GfMul11(c)), GfMul3(GfMul13(d)),
              GfMul13(a), GfMul9(b), GfMul14(c), GfMul11(d),
              GfMul11(a), GfMul13(b), GfMul9(c), GfMul14(d));
    SumZeros(a);
  }

  lemma SumTurns(a: Byte, b: Byte, c: Byte, d: Byte)
    ensures Sum(a, b, c, d) == Sum(b, c, d, a)
  {
  }

  function Turn(c: Column): Column {
    Column(c.s1, c.s2, c.s3, c.s0)
  }

  /** Both mixes commute with turning the column. */
  lemma MixTurns(c: Column)
    ensures MixColumn(Turn(c)) == Turn(MixColumn(c))
  {
    hide Sum, GfMul2, GfMul3;
    SumTurns(GfMul2(c.s0), GfMul3(c.s1), c.s2, c.s3);
    SumTurns(c.s0, GfMul2(c.s1), GfMul3(c.s2), c.s3);
    SumTurns(c.s0, c.s1, GfMul2(c.s2), GfMul3(c.s3));
    SumTurns(GfMul3(c.s0), c.s1, c.s2, GfMul2(c.s3));
  }

  lemma InvMixTurns(c: Column)
    ensures InvMixColumn(Turn(c)) == Turn(InvMixColumn(c))
  {
    hide Sum, GfMul9, GfMul11, GfMul13, GfMul14;
    SumTurns(GfMul14(c.s0), GfMul11(c.s1), GfMul13(c.s2), GfMul9(c.s3));
    SumTurns(GfMul9(c.s0), GfMul14(c.s1), GfMul11(c.s2), GfMul13(c.s3));
    SumTurns(GfMul13(c.s0), GfMul9(c.s1), GfMul14(c.s2), GfMul11(c.s3));
    SumTurns(GfMul11(c.s0), GfMul13(c.s1), GfMul9(c.s2), GfMul14(c.s3));
  }

  lemma FirstByte(c: Column)
    ensures InvMixColumn(MixColumn(c)).s0 == c.s0 && MixColumn(InvMixColumn(c)).s0 == c.s0
  {
    hide Sum, GfMul2, GfMul3, GfMul9, GfMul11, GfMul13, GfMul14;
    InvRow(c.s0, c.s1, c.s2, c.s3);
    MixRow(c.s0, c.s1, c.s2, c.s3);
  }

  /** Mixing and inverse mixing undo each other on every column. */
  lemma MixInverse(c: Column)
    ensures InvMixColumn(MixColumn(c)) == c && MixColumn(InvMixColumn(c)) == c
  {
    hide MixColumn, InvMixColumn;
    var c1 := Turn(c);
    var c2 := Turn(c1);
    var c3 := Turn(c2);
    FirstByte(c);
    FirstByte(c1);
    FirstByte(c2);
    FirstByte(c3);
    MixTurns(c);
    MixTurns(c1);
    MixTurns(c2);
    InvMixTurns(c);
    InvMixTurns(c1);
    InvMixTurns(c2);
    InvMixTurns(MixColumn(c));
    InvMixTurns(MixColumn(c1));
    InvMixTurns(MixColumn(c2));
    MixTurns(InvMixColumn(c));
    MixTurns(InvMixColumn(c1));
    MixTurns(InvMixColumn(c2));
  }
}
