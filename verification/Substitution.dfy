/** The byte substitution of AES: the two tables, that they undo each other, and the field
    inverse they are made from (sections 5.1.1 and 5.3.2 of FIPS 197). */
module Substitution {
  import opened Gf256

  /** Entry `n` of a row of sixteen. */
  function Pick(n: Byte, v0: Byte, v1: Byte, v2: Byte, v3: Byte, v4: Byte, v5: Byte, v6: Byte, v7: Byte,
                v8: Byte, v9: Byte, v10: Byte, v11: Byte, v12: Byte, v13: Byte, v14: Byte, v15: Byte): Byte {
    if n & 8 == 0 then
      (if n & 4 == 0 then (if n & 2 == 0 then (if n & 1 == 0 then v0 else v1) else (if n & 1 == 0 then v2 else v3))
       else (if n & 2 == 0 then (if n & 1 == 0 then v4 else v5) else (if n & 1 == 0 then v6 else v7)))
    else
      (if n & 4 == 0 then (if n & 2 == 0 then (if n & 1 == 0 then v8 else v9) else (if n & 1 == 0 then v10 else v11))
       else (if n & 2 == 0 then (if n & 1 == 0 then v12 else v13) else (if n & 1 == 0 then v14 else v15)))
  }

  /** The S-box table. */
  function Sbox(x: Byte): Byte {
    Pick(x >> 4,
      Pick(x & 0xF, 0x63, 0x7C, 0x77, 0x7B, 0xF2, 0x6B, 0x6F, 0xC5, 0x30, 0x01, 0x67, 0x2B, 0xFE, 0xD7, 0xAB, 0x76),
      Pick(x & 0xF, 0xCA, 0x82, 0xC9, 0x7D, 0xFA, 0x59, 0x47, 0xF0, 0xAD, 0xD4, 0xA2, 0xAF, 0x9C, 0xA4, 0x72, 0xC0),
      Pick(x & 0xF, 0xB7, 0xFD, 0x93, 0x26, 0x36, 0x3F, 0xF7, 0xCC, 0x34, 0xA5, 0xE5, 0xF1, 0x71, 0xD8, 0x31, 0x15),
      Pick(x & 0xF, 0x04, 0xC7, 0x23, 0xC3, 0x18, 0x96, 0x05, 0x9A, 0x07, 0x12, 0x80, 0xE2, 0xEB, 0x27, 0xB2, 0x75),
      Pick(x & 0xF, 0x09, 0x83, 0x2C, 0x1A, 0x1B, 0x6E, 0x5A, 0xA0, 0x52, 0x3B, 0xD6, 0xB3, 0x29, 0xE3, 0x2F, 0x84),
      Pick(x & 0xF, 0x53, 0xD1, 0x00, 0xED, 0x20, 0xFC, 0xB1, 0x5B, 0x6A, 0xCB, 0xBE, 0x39, 0x4A, 0x4C, 0x58, 0xCF),
      Pick(x & 0xF, 0xD0, 0xEF, 0xAA, 0xFB, 0x43, 0x4D, 0x33, 0x85, 0x45, 0xF9, 0x02, 0x7F, 0x50, 0x3C, 0x9F, 0xA8),
      Pick(x & 0xF, 0x51, 0xA3, 0x40, 0x8F, 0x92, 0x9D, 0x38, 0xF5, 0xBC, 0xB6, 0xDA, 0x21, 0x10, 0xFF, 0xF3, 0xD2),
      Pick(x & 0xF, 0xCD, 0x0C, 0x13, 0xEC, 0x5F, 0x97, 0x44, 0x17, 0xC4, 0xA7, 0x7E, 0x3D, 0x64, 0x5D, 0x19, 0x73),
      Pick(x & 0xF, 0x60, 0x81, 0x4F, 0xDC, 0x22, 0x2A, 0x90, 0x88, 0x46, 0xEE, 0xB8, 0x14, 0xDE, 0x5E, 0x0B, 0xDB),
      Pick(x & 0xF, 0xE0, 0x32, 0x3A, 0x0A, 0x49, 0x06, 0x24, 0x5C, 0xC2, 0xD3, 0xAC, 0x62, 0x91, 0x95, 0xE4, 0x79),
      Pick(x & 0xF, 0xE7, 0xC8, 0x37, 0x6D, 0x8D, 0xD5, 0x4E, 0xA9, 0x6C, 0x56, 0xF4, 0xEA, 0x65, 0x7A, 0xAE, 0x08),
      Pick(x & 0xF, 0xBA, 0x78, 0x25, 0x2E, 0x1C, 0xA6, 0xB4, 0xC6, 0xE8, 0xDD, 0x74, 0x1F, 0x4B, 0xBD, 0x8B, 0x8A),
      Pick(x & 0xF, 0x70, 0x3E, 0xB5, 0x66, 0x48, 0x03, 0xF6, 0x0E, 0x61, 0x35, 0x57, 0xB9, 0x86, 0xC1, 0x1D, 0x9E),
      Pick(x & 0xF, 0xE1, 0xF8, 0x98, 0x11, 0x69, 0xD9, 0x8E, 0x94, 0x9B, 0x1E, 0x87, 0xE9, 0xCE, 0x55, 0x28, 0xDF),
      Pick(x & 0xF, 0x8C, 0xA1, 0x89, 0x0D, 0xBF, 0xE6, 0x42, 0x68, 0x41, 0x99, 0x2D, 0x0F, 0xB0, 0x54, 0xBB, 0x16))
  }

  /** The inverse S-box table. */
  function InvSbox(x: Byte): Byte {
    Pick(x >> 4,
      Pick(x & 0xF, 0x52, 0x09, 0x6A, 0xD5, 0x30, 0x36, 0xA5, 0x38, 0xBF, 0x40, 0xA3, 0x9E, 0x81, 0xF3, 0xD7, 0xFB),
      Pick(x & 0xF, 0x7C, 0xE3, 0x39, 0x82, 0x9B, 0x2F, 0xFF, 0x87, 0x34, 0x8E, 0x43, 0x44, 0xC4, 0xDE, 0xE9, 0xCB),
      Pick(x & 0xF, 0x54, 0x7B, 0x94, 0x32, 0xA6, 0xC2, 0x23, 0x3D, 0xEE, 0x4C, 0x95, 0x0B, 0x42, 0xFA, 0xC3, 0x4E),
      Pick(x & 0xF, 0x08, 0x2E, 0xA1, 0x66, 0x28, 0xD9, 0x24, 0xB2, 0x76, 0x5B, 0xA2, 0x49, 0x6D, 0x8B, 0xD1, 0x25),
      Pick(x & 0xF, 0x72, 0xF8, 0xF6, 0x64, 0x86, 0x68, 0x98, 0x16, 0xD4, 0xA4, 0x5C, 0xCC, 0x5D, 0x65, 0xB6, 0x92),
      Pick(x & 0xF, 0x6C, 0x70, 0x48, 0x50, 0xFD, 0xED, 0xB9, 0xDA, 0x5E, 0x15, 0x46, 0x57, 0xA7, 0x8D, 0x9D, 0x84),
      Pick(x & 0xF, 0x90, 0xD8, 0xAB, 0x00, 0x8C, 0xBC, 0xD3, 0x0A, 0xF7, 0xE4, 0x58, 0x05, 0xB8, 0xB3, 0x45, 0x06),
      Pick(x & 0xF, 0xD0, 0x2C, 0x1E, 0x8F, 0xCA, 0x3F, 0x0F, 0x02, 0xC1, 0xAF, 0xBD, 0x03, 0x01, 0x13, 0x8A, 0x6B),
      Pick(x & 0xF, 0x3A, 0x91, 0x11, 0x41, 0x4F, 0x67, 0xDC, 0xEA, 0x97, 0xF2, 0xCF, 0xCE, 0xF0, 0xB4, 0xE6, 0x73),
      Pick(x & 0xF, 0x96, 0xAC, 0x74, 0x22, 0xE7, 0xAD, 0x35, 0x85, 0xE2, 0xF9, 0x37, 0xE8, 0x1C, 0x75, 0xDF, 0x6E),
      Pick(x & 0xF, 0x47, 0xF1, 0x1A, 0x71, 0x1D, 0x29, 0xC5, 0x89, 0x6F, 0xB7, 0x62, 0x0E, 0xAA, 0x18, 0xBE, 0x1B),
      Pick(x & 0xF, 0xFC, 0x56, 0x3E, 0x4B, 0xC6, 0xD2, 0x79, 0x20, 0x9A, 0xDB, 0xC0, 0xFE, 0x78, 0xCD, 0x5A, 0xF4),
      Pick(x & 0xF, 0x1F, 0xDD, 0xA8, 0x33, 0x88, 0x07, 0xC7, 0x31, 0xB1, 0x12, 0x10, 0x59, 0x27, 0x80, 0xEC, 0x5F),
      Pick(x & 0xF, 0x60, 0x51, 0x7F, 0xA9, 0x19, 0xB5, 0x4A, 0x0D, 0x2D, 0xE5, 0x7A, 0x9F, 0x93, 0xC9, 0x9C, 0xEF),
      Pick(x & 0xF, 0xA0, 0xE0, 0x3B, 0x4D, 0xAE, 0x2A, 0xF5, 0xB0, 0xC8, 0xEB, 0xBB, 0x3C, 0x83, 0x53, 0x99, 0x61),
      Pick(x & 0xF, 0x17, 0x2B, 0x04, 0x7E, 0xBA, 0x77, 0xD6, 0x26, 0xE1, 0x69, 0x14, 0x63, 0x55, 0x21, 0x0C, 0x7D))
  }

  lemma SboxInverse(x: Byte)
    ensures InvSbox(Sbox(x)) == x
  {
    hide Sbox, InvSbox;
    if x & 0x80 == 0 { SboxInverseLow(x); } else { SboxInverseHigh(x); }
  }

  lemma SboxInverseLow(x: Byte)
    requires x & 0x80 == 0
    ensures InvSbox(Sbox(x)) == x
  {
  }

  lemma SboxInverseHigh(x: Byte)
    requires x & 0x80 != 0
    ensures InvSbox(Sbox(x)) == x
  {
  }

  lemma InvSboxInverse(x: Byte)
    ensures Sbox(InvSbox(x)) == x
  {
    hide Sbox, InvSbox;
    if x & 0x80 == 0 { InvSboxInverseLow(x); } else { InvSboxInverseHigh(x); }
  }

  lemma InvSboxInverseLow(x: Byte)
    requires x & 0x80 == 0
    ensures Sbox(InvSbox(x)) == x
  {
  }

  lemma InvSboxInverseHigh(x: Byte)
    requires x & 0x80 != 0
    ensures Sbox(InvSbox(x)) == x
  {
  }

  function Rotate(b: Byte, n: Byte): Byte
    requires 1 <= n <= 7
  {
    (b << n) | (b >> (8 - n))
  }

  /** The affine map of section 5.1.1. */
  function Affine(b: Byte): Byte {
    b ^ Rotate(b, 1) ^ Rotate(b, 2) ^ Rotate(b, 3) ^ Rotate(b, 4) ^ 0x63
  }

  /** The inverse affine map of section 5.3.2. */
  function InvAffine(b: Byte): Byte {
    Rotate(b, 1) ^ Rotate(b, 3) ^ Rotate(b, 6) ^ 0x05
  }

  /** The table holds, for every byte, the affine image of its inverse in the field. */
  lemma SboxIsAffineInverse(x: Byte)
    ensures Affine(InvAffine(Sbox(x))) == Sbox(x)
    ensures if x == 0 then InvAffine(Sbox(x)) == 0 else GfProduct(x, InvAffine(Sbox(x))) == 1
  {
    hide Sbox, InvAffine, Affine, GfProduct;
    AffineInverse(Sbox(x));
    match x >> 4
    case 0 => FieldInverse0(x);
    case 1 => FieldInverse1(x);
    case 2 => FieldInverse2(x);
    case 3 => FieldInverse3(x);
    case 4 => FieldInverse4(x);
    case 5 => FieldInverse5(x);
    case 6 => FieldInverse6(x);
    case 7 => FieldInverse7(x);
    case 8 => FieldInverse8(x);
    case 9 => FieldInverse9(x);
    case 10 => FieldInverseA(x);
    case 11 => FieldInverseB(x);
    case 12 => FieldInverseC(x);
    case 13 => FieldInverseD(x);
    case 14 => FieldInverseE(x);
    case _ => FieldInverseF(x);
  }

  lemma AffineInverse(b: Byte)
    ensures Affine(InvAffine(b)) == b && InvAffine(Affine(b)) == b
  {
  }

  lemma FieldInverse0(x: Byte)
    requires x >> 4 == 0
    ensures if x == 0 then InvAffine(Sbox(x)) == 0 else GfProduct(x, InvAffine(Sbox(x))) == 1
  {
  }

  lemma FieldInverse1(x: Byte)
    requires x >> 4 == 1
    ensures GfProduct(x, InvAffine(Sbox(x))) == 1
  {
  }

  lemma FieldInverse2(x: Byte)
    requires x >> 4 == 2
    ensures GfProduct(x, InvAffine(Sbox(x))) == 1
  {
  }

  lemma FieldInverse3(x: Byte)
    requires x >> 4 == 3
    ensures GfProduct(x, InvAffine(Sbox(x))) == 1
  {
  }

  lemma FieldInverse4(x: Byte)
    requires x >> 4 == 4
    ensures GfProduct(x, InvAffine(Sbox(x))) == 1
  {
  }

  lemma FieldInverse5(x: Byte)
    requires x >> 4 == 5
    ensures GfProduct(x, InvAffine(Sbox(x))) == 1
  {
  }

  lemma FieldInverse6(x: Byte)
    requires x >> 4 == 6
    ensures GfProduct(x, InvAffine(Sbox(x))) == 1
  {
  }

  lemma FieldInverse7(x: Byte)
    requires x >> 4 == 7
    ensures GfProduct(x, InvAffine(Sbox(x))) == 1
  {
  }

  lemma FieldInverse8(x: Byte)
    requires x >> 4 == 8
    ensures GfProduct(x, InvAffine(Sbox(x))) == 1
  {
  }

  lemma FieldInverse9(x: Byte)
    requires x >> 4 == 9
    ensures GfProduct(x, InvAffine(Sbox(x))) == 1
  {
  }

  lemma FieldInverseA(x: Byte)
    requires x >> 4 == 10
    ensures GfProduct(x, InvAffine(Sbox(x))) == 1
  {
  }

  lemma FieldInverseB(x: Byte)
    requires x >> 4 == 11
    ensures GfProduct(x, InvAffine(Sbox(x))) == 1
  {
  }

  lemma FieldInverseC(x: Byte)
    requires x >> 4 == 12
    ensures GfProduct(x, InvAffine(Sbox(x))) == 1
  {
  }

  lemma FieldInverseD(x: Byte)
    requires x >> 4 == 13
    ensures GfProduct(x, InvAffine(Sbox(x))) == 1
  {
  }

  lemma FieldInverseE(x: Byte)
    requires x >> 4 == 14
    ensures GfProduct(x, InvAffine(Sbox(x))) == 1
  {
  }

  lemma FieldInverseF(x: Byte)
    requires x >> 4 == 15
    ensures GfProduct(x, InvAffine(Sbox(x))) == 1
  {
  }
}
