/** The AES-256 routines as they work: every layer rewrites the 16-byte block in place. */
module Aes {
  import opened Gf256
  import opened Substitution
  import opened BlockCipher

  method SubBytesInPlace(block: array<Byte>)
    requires block.Length == 16
    modifies block
    ensures block[..] == SubBytes(old(block[..]))
  {
    hide Sbox;
    for i := 0 to 16
      invariant forall k :: 0 <= k < i ==> block[k] == Sbox(old(block[k]))
      invariant forall k :: i <= k < 16 ==> block[k] == old(block[k])
    {
      block[i] := Sbox(block[i]);
    }
  }

  method InvSubBytesInPlace(block: array<Byte>)
    requires block.Length == 16
    modifies block
    ensures block[..] == InvSubBytes(old(block[..]))
  {
    hide InvSbox;
    for i := 0 to 16
      invariant forall k :: 0 <= k < i ==> block[k] == InvSbox(old(block[k]))
      invariant forall k :: i <= k < 16 ==> block[k] == old(block[k])
    {
      block[i] := InvSbox(block[i]);
    }
  }

  /** Four bytes of the row that starts at `r`. */
  ghost predicate RowIs(s: seq<Byte>, r: nat, a: Byte, b: Byte, c: Byte, d: Byte)
    requires |s| == 16 && r < 4
  {
    s[r] == a && s[r + 4] == b && s[r + 8] == c && s[r + 12] == d
  }

  lemma ShiftAt(s: State, c: nat, r: nat, origin: nat)
    requires c < 4 && r < 4 && origin == if c + r < 4 then 4 * (c + r) + r else 4 * (c + r - 4) + r
    ensures ShiftRows(s)[4 * c + r] == s[origin]
  {
    SmallMod(c + r);
    assert (4 * c + r) / 4 == c && (4 * c + r) % 4 == r;
  }

  lemma InvShiftAt(s: State, c: nat, r: nat, origin: nat)
    requires c < 4 && r < 4 && origin == if c + 4 - r < 4 then 4 * (c + 4 - r) + r else 4 * (c - r) + r
    ensures InvShiftRows(s)[4 * c + r] == s[origin]
  {
    SmallMod(c + 4 - r);
    assert (4 * c + r) / 4 == c && (4 * c + r) % 4 == r;
  }

  lemma ShiftByRows(s: State, t: State)
    requires RowIs(t, 0, s[0], s[4], s[8], s[12]) && RowIs(t, 1, s[5], s[9], s[13], s[1])
    requires RowIs(t, 2, s[10], s[14], s[2], s[6]) && RowIs(t, 3, s[15], s[3], s[7], s[11])
    ensures t == ShiftRows(s)
  {
    hide ShiftRows;
    ShiftAt(s, 0, 0, 0); ShiftAt(s, 1, 0, 4); ShiftAt(s, 2, 0, 8); ShiftAt(s, 3, 0, 12);
    ShiftAt(s, 0, 1, 5); ShiftAt(s, 1, 1, 9); ShiftAt(s, 2, 1, 13); ShiftAt(s, 3, 1, 1);
    ShiftAt(s, 0, 2, 10); ShiftAt(s, 1, 2, 14); ShiftAt(s, 2, 2, 2); ShiftAt(s, 3, 2, 6);
    ShiftAt(s, 0, 3, 15); ShiftAt(s, 1, 3, 3); ShiftAt(s, 2, 3, 7); ShiftAt(s, 3, 3, 11);
    SameColumns(t, ShiftRows(s));
  }

  lemma InvShiftByRows(s: State, t: State)
    requires RowIs(t, 0, s[0], s[4], s[8], s[12]) && RowIs(t, 1, s[13], s[1], s[5], s[9])
    requires RowIs(t, 2, s[10], s[14], s[2], s[6]) && RowIs(t, 3, s[7], s[11], s[15], s[3])
    ensures t == InvShiftRows(s)
  {
    hide InvShiftRows;
    InvShiftAt(s, 0, 0, 0); InvShiftAt(s, 1, 0, 4); InvShiftAt(s, 2, 0, 8); InvShiftAt(s, 3, 0, 12);
    InvShiftAt(s, 0, 1, 13); InvShiftAt(s, 1, 1, 1); InvShiftAt(s, 2, 1, 5); InvShiftAt(s, 3, 1, 9);
    InvShiftAt(s, 0, 2, 10); InvShiftAt(s, 1, 2, 14); InvShiftAt(s, 2, 2, 2); InvShiftAt(s, 3, 2, 6);
    InvShiftAt(s, 0, 3, 7); InvShiftAt(s, 1, 3, 11); InvShiftAt(s, 2, 3, 15); InvShiftAt(s, 3, 3, 3);
    SameColumns(t, InvShiftRows(s));
  }

  method ShiftRowsInPlace(block: array<Byte>)
    requires block.Length == 16
    modifies block
    ensures block[..] == ShiftRows(old(block[..]))
  {
    hide ShiftRows;
    var t := block[1];
    block[1] := block[5]; block[5] := block[9]; block[9] := block[13]; block[13] := t;
    var t0, t1 := block[2], block[6];
    block[2] := block[10]; block[10] := t0;
    block[6] := block[14]; block[14] := t1;
    t := block[15];
    block[15] := block[11]; block[11] := block[7]; block[7] := block[3]; block[3] := t;
    ShiftByRows(old(block[..]), block[..]);
  }

  method InvShiftRowsInPlace(block: array<Byte>)
    requires block.Length == 16
    modifies block
    ensures block[..] == InvShiftRows(old(block[..]))
  {
    hide InvShiftRows;
    var t := block[13];
    block[13] := block[9]; block[9] := block[5]; block[5] := block[1]; block[1] := t;
    var t0, t1 := block[2], block[6];
    block[2] := block[10]; block[10] := t0;
    block[6] := block[14]; block[14] := t1;
    t := block[3];
    block[3] := block[7]; block[7] := block[11]; block[11] := block[15]; block[15] := t;
    InvShiftByRows(old(block[..]), block[..]);
  }

  method MixColumnsInPlace(block: array<Byte>)
    requires block.Length == 16
    modifies block
    ensures block[..] == MixColumns(old(block[..]))
  {
    hide GfMul2, GfMul3, Sum, MixColumns;
    ghost var s := block[..];
    for col := 0 to 4
      invariant forall c :: 0 <= c < col ==> ColumnAt(block[..], c) == MixColumn(ColumnAt(s, c))
      invariant forall k :: 4 * col <= k < 16 ==> block[k] == s[k]
    {
      var i := 4 * col;
      var s0, s1, s2, s3 := block[i], block[i + 1], block[i + 2], block[i + 3];
      block[i] := Sum(GfMul2(s0), GfMul3(s1), s2, s3);
      block[i + 1] := Sum(s0, GfMul2(s1), GfMul3(s2), s3);
      block[i + 2] := Sum(s0, s1, GfMul2(s2), GfMul3(s3));
      block[i + 3] := Sum(GfMul3(s0), s1, s2, GfMul2(s3));
    }
    forall c | 0 <= c < 4
      ensures ColumnAt(block[..], c) == ColumnAt(MixColumns(s), c)
    {
      MixedColumn(s, c);
    }
    SameColumns(block[..], MixColumns(s));
  }

  method InvMixColumnsInPlace(block: array<Byte>)
    requires block.Length == 16
    modifies block
    ensures block[..] == InvMixColumns(old(block[..]))
  {
    hide GfMul9, GfMul11, GfMul13, GfMul14, Sum, InvMixColumns;
    ghost var s := block[..];
    for col := 0 to 4
      invariant forall c :: 0 <= c < col ==> ColumnAt(block[..], c) == InvMixColumn(ColumnAt(s, c))
      invariant forall k :: 4 * col <= k < 16 ==> block[k] == s[k]
    {
      var i := 4 * col;
      var s0, s1, s2, s3 := block[i], block[i + 1], block[i + 2], block[i + 3];
      block[i] := Sum(GfMul14(s0), GfMul11(s1), GfMul13(s2), GfMul9(s3));
      block[i + 1] := Sum(GfMul9(s0), GfMul14(s1), GfMul11(s2), GfMul13(s3));
      block[i + 2] := Sum(GfMul13(s0), GfMul9(s1), GfMul14(s2), GfMul11(s3));
      block[i + 3] := Sum(GfMul11(s0), GfMul13(s1), GfMul9(s2), GfMul14(s3));
    }
    forall c | 0 <= c < 4
      ensures ColumnAt(block[..], c) == ColumnAt(InvMixColumns(s), c)
    {
      MixedColumn(s, c);
    }
    SameColumns(block[..], InvMixColumns(s));
  }

  method AddRoundKey(block: array<Byte>, roundKey: State)
    requires block.Length == 16
    modifies block
    ensures block[..] == AddKey(old(block[..]), roundKey)
  {
    for i := 0 to 16
      invariant forall k :: 0 <= k < i ==> block[k] == old(block[k]) ^ roundKey[k]
      invariant forall k :: i <= k < 16 ==> block[k] == old(block[k])
    {
      block[i] := block[i] ^ roundKey[i];
    }
  }

  /** The previous word rotated, substituted and given a round constant where due. */
  method Stir(t: Word, i: nat, rconIdx: nat) returns (temp: Word, rconIdx': nat)
    requires 8 <= i < 60 && rconIdx == (i + 7) / 8
    ensures temp == Stirred(t, i) && rconIdx' == (i + 8) / 8
  {
    hide Sbox, Rcon, SubWord, RotWord, XorWords;
    temp, rconIdx' := t, rconIdx;
    if i % 8 == 0 {
      RconIsTable(rconIdx);
      temp := Word(Sbox(t.b1) ^ AES_RCON[rconIdx], Sbox(t.b2), Sbox(t.b3), Sbox(t.b0));
      RotatedWord(t, AES_RCON[rconIdx]);
      rconIdx' := rconIdx + 1;
    } else if i % 8 == 4 {
      temp := Word(Sbox(t.b0), Sbox(t.b1), Sbox(t.b2), Sbox(t.b3));
      SubstitutedWord(t);
    }
  }

  lemma RotatedWord(t: Word, rcon: Byte)
    ensures Word(Sbox(t.b1) ^ rcon, Sbox(t.b2), Sbox(t.b3), Sbox(t.b0)) == XorWords(SubWord(RotWord(t)), Word(rcon, 0, 0, 0))
  {
    hide Sbox;
    XorZero(Sbox(t.b2));
    XorZero(Sbox(t.b3));
    XorZero(Sbox(t.b0));
  }

  lemma SubstitutedWord(t: Word)
    ensures Word(Sbox(t.b0), Sbox(t.b1), Sbox(t.b2), Sbox(t.b3)) == SubWord(t)
  {
    hide Sbox;
  }

  /** One turn of the key expansion loop: writes word `i`. */
  method NextKeyWord(key: seq<Byte>, rk: array<Byte>, i: nat, rconIdx: nat) returns (rconIdx': nat)
    requires |key| == 32 && rk.Length == 240 && 8 <= i < 60 && rconIdx == (i + 7) / 8
    requires forall w :: 0 <= w < i ==> WordAt(rk[..], w) == KeyWord(key, w)
    modifies rk
    ensures rconIdx' == (i + 8) / 8
    ensures forall w :: 0 <= w <= i ==> WordAt(rk[..], w) == KeyWord(key, w)
  {
    hide Stirred, KeyWord, XorWords;
    assert WordAt(rk[..], i - 1) == KeyWord(key, i - 1) && WordAt(rk[..], i - 8) == KeyWord(key, i - 8);
    var temp;
    temp, rconIdx' := Stir(Word(rk[(i - 1) * 4], rk[(i - 1) * 4 + 1], rk[(i - 1) * 4 + 2], rk[(i - 1) * 4 + 3]), i, rconIdx);
    KeyWordUnfolds(key, i);
    var prev := (i - 8) * 4;
    StoreWord(rk, i, XorWords(Word(rk[prev], rk[prev + 1], rk[prev + 2], rk[prev + 3]), temp));
  }

  lemma KeyWordUnfolds(key: seq<Byte>, i: nat)
    requires |key| == 32 && 8 <= i < 60
    ensures KeyWord(key, i) == XorWords(KeyWord(key, i - 8), Stirred(KeyWord(key, i - 1), i))
  {
    hide Stirred, XorWords;
  }

  method StoreWord(rk: array<Byte>, i: nat, word: Word)
    requires rk.Length == 240 && i < 60
    modifies rk
    ensures WordAt(rk[..], i) == word
    ensures forall w :: 0 <= w < i ==> WordAt(rk[..], w) == WordAt(old(rk[..]), w)
  {
    ghost var before := rk[..];
    rk[i * 4] := word.b0;
    rk[i * 4 + 1] := word.b1;
    rk[i * 4 + 2] := word.b2;
    rk[i * 4 + 3] := word.b3;
    SamePrefix(before, rk[..], i);
  }

  lemma SamePrefix(a: seq<Byte>, b: seq<Byte>, i: nat)
    requires |a| == |b| == 240 && i < 60 && forall k :: 0 <= k < 4 * i ==> a[k] == b[k]
    ensures forall w :: 0 <= w < i ==> WordAt(b, w) == WordAt(a, w)
  {
  }

  /** `from_key`: the key, then the loop over words 8 to 59. */
  method FromKey(key: seq<Byte>) returns (rk: array<Byte>)
    requires |key| == 32
    ensures fresh(rk) && rk[..] == ExpandKey(key)
  {
    hide Sbox, KeyWord, WordByte, WordAt, ExpandKey;
    rk := new Byte[240](i => 0);
    for j := 0 to 32
      invariant forall k :: 0 <= k < j ==> rk[k] == key[k]
    {
      rk[j] := key[j];
    }
    FirstWords(key, rk[..]);
    var i := 8;
    var rconIdx := 1;
    while i < 60
      invariant 8 <= i <= 60 && rconIdx == (i + 7) / 8
      invariant forall w :: 0 <= w < i ==> WordAt(rk[..], w) == KeyWord(key, w)
    {
      rconIdx := NextKeyWord(key, rk, i, rconIdx);
      i := i + 1;
    }
    WordsAreSchedule(key, rk[..]);
  }

  class Aes256Key {
    const roundKeys: Schedule

    constructor (key: seq<Byte>)
      requires |key| == 32
      ensures roundKeys == ExpandKey(key)
    {
      var rk := FromKey(key);
      roundKeys := rk[..];
    }

    /** `encrypt_block` */
    method EncryptBlock(block: array<Byte>)
      requires block.Length == 16
      modifies block
      ensures block[..] == Encrypt(roundKeys, old(block[..]))
    {
      hide SubBytes, ShiftRows, MixColumns, AddKey, RoundKey;
      ghost var s := block[..];
      AddRoundKey(block, RoundKey(roundKeys, 0));
      for round := 1 to ROUNDS
        invariant block[..] == AfterRounds(roundKeys, s, round - 1)
      {
        SubBytesInPlace(block);
        ShiftRowsInPlace(block);
        MixColumnsInPlace(block);
        AddRoundKey(block, RoundKey(roundKeys, round));
      }
      SubBytesInPlace(block);
      ShiftRowsInPlace(block);
      AddRoundKey(block, RoundKey(roundKeys, ROUNDS));
    }

    /** `decrypt_block` */
    method DecryptBlock(block: array<Byte>)
      requires block.Length == 16
      modifies block
      ensures block[..] == Decrypt(roundKeys, old(block[..]))
    {
      hide InvSubBytes, InvShiftRows, InvMixColumns, AddKey, RoundKey;
      ghost var s := block[..];
      AddRoundKey(block, RoundKey(roundKeys, ROUNDS));
      for round := ROUNDS downto 1
        invariant Unwind(roundKeys, block[..], round - 1) == Decrypt(roundKeys, s)
      {
        InvShiftRowsInPlace(block);
        InvSubBytesInPlace(block);
        AddRoundKey(block, RoundKey(roundKeys, round));
        InvMixColumnsInPlace(block);
      }
      InvShiftRowsInPlace(block);
      InvSubBytesInPlace(block);
      AddRoundKey(block, RoundKey(roundKeys, 0));
    }
  }

  const AES_RCON: seq<Byte> := [0x00, 0x01, 0x02, 0x04, 0x08, 0x10, 0x20, 0x40, 0x80, 0x1B, 0x36]

  /** The round constants are the powers of x. */
  lemma RconIsTable(i: nat)
    requires 1 <= i <= 10
    ensures AES_RCON[i] == Rcon(i)
  {
    assert GfMul2(0x01) == 0x02 && GfMul2(0x02) == 0x04 && GfMul2(0x04) == 0x08 && GfMul2(0x08) == 0x10;
    assert GfMul2(0x10) == 0x20 && GfMul2(0x20) == 0x40 && GfMul2(0x40) == 0x80 && GfMul2(0x80) == 0x1B;
    assert GfMul2(0x1B) == 0x36;
    if i > 1 {
      RconIsTable(i - 1);
    }
  }

  function WordAt(rk: seq<Byte>, w: nat): Word
    requires |rk| == 240 && w < 60
  {
    Word(rk[4 * w], rk[4 * w + 1], rk[4 * w + 2], rk[4 * w + 3])
  }

  lemma FirstWords(key: seq<Byte>, rk: seq<Byte>)
    requires |key| == 32 && |rk| == 240 && forall k :: 0 <= k < 32 ==> rk[k] == key[k]
    ensures forall w :: 0 <= w < 8 ==> WordAt(rk, w) == KeyWord(key, w)
  {
    hide Sbox;
  }

  lemma XorZero(a: Byte)
    ensures a ^ 0 == a
  {
  }

  lemma WordsAreSchedule(key: seq<Byte>, rk: seq<Byte>)
    requires |key| == 32 && |rk| == 240
    requires forall w :: 0 <= w < 60 ==> WordAt(rk, w) == KeyWord(key, w)
    ensures rk == ExpandKey(key)
  {
    hide KeyWord;
    forall i | 0 <= i < 240
      ensures rk[i] == WordByte(KeyWord(key, i / 4), i % 4)
    {
      assert WordAt(rk, i / 4) == KeyWord(key, i / 4);
    }
  }
}
