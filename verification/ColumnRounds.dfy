/** AES-256 on blocks of four columns: a round, a round key from the two before it, and a block taken
    through all rounds under round keys that follow one another. */
module ColumnRounds {
  import opened Gf256
  import opened Substitution
  import opened BlockCipher

  // ---- rounds on four columns ----------------------------------------------------------------------

  datatype Quad = Quad(a: Column, b: Column, c: Column, d: Column)

  function Of(s: Quad): State {
    [s.a.s0, s.a.s1, s.a.s2, s.a.s3, s.b.s0, s.b.s1, s.b.s2, s.b.s3, s.c.s0, s.c.s1, s.c.s2, s.c.s3, s.d.s0, s.d.s1, s.d.s2, s.d.s3]
  }

  function Added(c: Column, k: Column): Column {
    Column(c.s0 ^ k.s0, c.s1 ^ k.s1, c.s2 ^ k.s2, c.s3 ^ k.s3)
  }

  function Keyed(s: Quad, k: Quad): Quad {
    Quad(Added(s.a, k.a), Added(s.b, k.b), Added(s.c, k.c), Added(s.d, k.d))
  }

  function Subbed(p: Byte, q: Byte, r: Byte, s: Byte): Column {
    Column(Sbox(p), Sbox(q), Sbox(r), Sbox(s))
  }

  /** Substituted and with the rows shifted. */
  function Shifted(s: Quad): Quad {
    Quad(Subbed(s.a.s0, s.b.s1, s.c.s2, s.d.s3), Subbed(s.b.s0, s.c.s1, s.d.s2, s.a.s3),
         Subbed(s.c.s0, s.d.s1, s.a.s2, s.b.s3), Subbed(s.d.s0, s.a.s1, s.b.s2, s.c.s3))
  }

  function Mixed(s: Quad): Quad {
    Quad(MixColumn(s.a), MixColumn(s.b), MixColumn(s.c), MixColumn(s.d))
  }

  /** A full round. */
  function Next(s: Quad, k: Quad): Quad {
    Keyed(Mixed(Shifted(s)), k)
  }

  lemma ColumnsOf(s: Quad)
    ensures ColumnAt(Of(s), 0) == s.a && ColumnAt(Of(s), 1) == s.b && ColumnAt(Of(s), 2) == s.c && ColumnAt(Of(s), 3) == s.d
  {
  }

  /** A state is its four columns. */
  lemma IsOf(s: State, q: Quad)
    requires ColumnAt(s, 0) == q.a && ColumnAt(s, 1) == q.b && ColumnAt(s, 2) == q.c && ColumnAt(s, 3) == q.d
    ensures s == Of(q)
  {
    hide ColumnAt, Of;
    ColumnsOf(q);
    SameColumns(s, Of(q));
  }

  lemma AddedColumn(s: State, k: State, c: nat)
    requires c < 4
    ensures ColumnAt(AddKey(s, k), c) == Added(ColumnAt(s, c), ColumnAt(k, c))
  {
  }

  lemma KeyedOf(s: Quad, k: Quad)
    ensures AddKey(Of(s), Of(k)) == Of(Keyed(s, k))
  {
    hide AddKey, ColumnAt, Of, Added;
    ColumnsOf(s);
    ColumnsOf(k);
    AddedColumn(Of(s), Of(k), 0);
    AddedColumn(Of(s), Of(k), 1);
    AddedColumn(Of(s), Of(k), 2);
    AddedColumn(Of(s), Of(k), 3);
    IsOf(AddKey(Of(s), Of(k)), Keyed(s, k));
  }

  lemma MixedOf(s: Quad)
    ensures MixColumns(Of(s)) == Of(Mixed(s))
  {
    hide MixColumn, MixColumns, ColumnAt, Of;
    ColumnsOf(s);
    MixedColumn(Of(s), 0);
    MixedColumn(Of(s), 1);
    MixedColumn(Of(s), 2);
    MixedColumn(Of(s), 3);
    IsOf(MixColumns(Of(s)), Mixed(s));
  }

  /** Row `r` of column `c` comes from column `c + r` of the same row. */
  lemma ShiftedByte(s: State, c: nat, r: nat)
    requires c < 4 && r < 4
    ensures ShiftRows(s)[4 * c + r] == s[4 * (if c + r < 4 then c + r else c + r - 4) + r]
  {
    assert (4 * c + r) / 4 == c && (4 * c + r) % 4 == r;
    SmallMod(c + r);
  }

  lemma ShiftedColumn(s: State, c: nat)
    requires c < 4
    ensures ColumnAt(ShiftRows(s), c)
         == Column(ColumnAt(s, c).s0, ColumnAt(s, (c + 1) % 4).s1, ColumnAt(s, (c + 2) % 4).s2, ColumnAt(s, (c + 3) % 4).s3)
  {
    hide ShiftRows;
    ShiftedByte(s, c, 0);
    ShiftedByte(s, c, 1);
    ShiftedByte(s, c, 2);
    ShiftedByte(s, c, 3);
    SmallMod(c + 1);
    SmallMod(c + 2);
    SmallMod(c + 3);
  }

  lemma SubbedColumn(s: State, c: nat)
    requires c < 4
    ensures var u := ColumnAt(s, c); ColumnAt(SubBytes(s), c) == Subbed(u.s0, u.s1, u.s2, u.s3)
  {
    hide Sbox;
  }

  lemma ShiftedOf(s: Quad)
    ensures ShiftRows(SubBytes(Of(s))) == Of(Shifted(s))
  {
    hide ShiftRows, SubBytes, Sbox, ColumnAt, Of;
    var t := SubBytes(Of(s));
    ColumnsOf(s);
    SubbedColumn(Of(s), 0);
    SubbedColumn(Of(s), 1);
    SubbedColumn(Of(s), 2);
    SubbedColumn(Of(s), 3);
    ShiftedColumn(t, 0);
    ShiftedColumn(t, 1);
    ShiftedColumn(t, 2);
    ShiftedColumn(t, 3);
    IsOf(ShiftRows(t), Shifted(s));
  }

  lemma NextOf(s: Quad, k: Quad)
    ensures AddKey(MixColumns(ShiftRows(SubBytes(Of(s)))), Of(k)) == Of(Next(s, k))
    ensures AddKey(ShiftRows(SubBytes(Of(s))), Of(k)) == Of(Keyed(Shifted(s), k))
  {
    hide AddKey, MixColumns, ShiftRows, SubBytes, Of, Mixed, Shifted, Keyed;
    ShiftedOf(s);
    MixedOf(Shifted(s));
    KeyedOf(Mixed(Shifted(s)), k);
    KeyedOf(Shifted(s), k);
  }

  // ---- round keys ------------------------------------------------------------------------------------

  /** What the last word of a round key goes through before it is added in. */
  function Stir(d: Column, n: nat): Column
    requires n >= 2
  {
    if n % 2 == 0 then Added(Subbed(d.s1, d.s2, d.s3, d.s0), Column(Rcon(n / 2), 0, 0, 0)) else Subbed(d.s0, d.s1, d.s2, d.s3)
  }

  /** One round key from the two before it. */
  function NextKey(p: Quad, q: Quad, n: nat): Quad
    requires n >= 2
  {
    var a := Added(p.a, Stir(q.d, n));
    var b := Added(p.b, a);
    var c := Added(p.c, b);
    Quad(a, b, c, Added(p.d, c))
  }

  function Col(w: Word): Column {
    Column(w.b0, w.b1, w.b2, w.b3)
  }

  /** Four words of the key expansion. */
  function Words(key: seq<Byte>, n: nat): Quad
    requires |key| == 32 && n <= ROUNDS
  {
    Quad(Col(KeyWord(key, 4 * n)), Col(KeyWord(key, 4 * n + 1)), Col(KeyWord(key, 4 * n + 2)), Col(KeyWord(key, 4 * n + 3)))
  }

  lemma WordUnfolds(key: seq<Byte>, i: nat)
    requires |key| == 32 && 8 <= i < 60
    ensures KeyWord(key, i) == XorWords(KeyWord(key, i - 8), Stirred(KeyWord(key, i - 1), i))
  {
  }

  lemma ColOfSum(a: Word, b: Word)
    ensures Col(XorWords(a, b)) == Added(Col(a), Col(b))
  {
  }

  lemma StirIs(w: Word, n: nat)
    requires n >= 2
    ensures Col(Stirred(w, 4 * n)) == Stir(Col(w), n)
    ensures Stirred(w, 4 * n + 1) == w && Stirred(w, 4 * n + 2) == w && Stirred(w, 4 * n + 3) == w
  {
    hide Sbox, Rcon;
    Remainders(n);
  }

  lemma Remainders(n: nat)
    ensures (4 * n) % 8 == (if n % 2 == 0 then 0 else 4) && (n % 2 == 0 ==> (4 * n) / 8 == n / 2)
    ensures (4 * n + 1) % 8 != 0 && (4 * n + 1) % 8 != 4 && (4 * n + 2) % 8 != 0 && (4 * n + 2) % 8 != 4
    ensures (4 * n + 3) % 8 != 0 && (4 * n + 3) % 8 != 4
  {
  }

  lemma WordsFollow(key: seq<Byte>, n: nat)
    requires |key| == 32 && 2 <= n <= ROUNDS
    ensures Words(key, n) == NextKey(Words(key, n - 2), Words(key, n - 1), n)
  {
    hide KeyWord, Stirred, Stir, XorWords, Added, Col;
    WordUnfolds(key, 4 * n);
    WordUnfolds(key, 4 * n + 1);
    WordUnfolds(key, 4 * n + 2);
    WordUnfolds(key, 4 * n + 3);
    StirIs(KeyWord(key, 4 * n - 1), n);
    StirIs(KeyWord(key, 4 * n), n);
    StirIs(KeyWord(key, 4 * n + 1), n);
    StirIs(KeyWord(key, 4 * n + 2), n);
    ColOfSum(KeyWord(key, 4 * n - 8), Stirred(KeyWord(key, 4 * n - 1), 4 * n));
    ColOfSum(KeyWord(key, 4 * n - 7), KeyWord(key, 4 * n));
    ColOfSum(KeyWord(key, 4 * n - 6), KeyWord(key, 4 * n + 1));
    ColOfSum(KeyWord(key, 4 * n - 5), KeyWord(key, 4 * n + 2));
  }

  lemma KeyByte(key: seq<Byte>, n: nat, j: nat)
    requires |key| == 32 && n <= ROUNDS && j < 16
    ensures RoundKey(ExpandKey(key), n)[j] == WordByte(KeyWord(key, 4 * n + j / 4), j % 4)
  {
    hide KeyWord;
    assert (16 * n + j) / 4 == 4 * n + j / 4 && (16 * n + j) % 4 == j % 4;
  }

  lemma KeyColumn(key: seq<Byte>, n: nat, c: nat)
    requires |key| == 32 && n <= ROUNDS && c < 4
    ensures ColumnAt(RoundKey(ExpandKey(key), n), c) == Col(KeyWord(key, 4 * n + c))
  {
    hide KeyWord, RoundKey, ExpandKey;
    KeyByte(key, n, 4 * c);
    KeyByte(key, n, 4 * c + 1);
    KeyByte(key, n, 4 * c + 2);
    KeyByte(key, n, 4 * c + 3);
  }

  /** The first two round keys are the key, and each other follows from the two before it. */
  predicate Scheduled(key: seq<Byte>, keys: seq<Quad>)
    requires |key| == 32
  {
    && |keys| == ROUNDS + 1 && Words(key, 0) == keys[0] && Words(key, 1) == keys[1]
    && forall n: nat :: 2 <= n <= ROUNDS ==> Follows(keys, n)
  }

  predicate Follows(keys: seq<Quad>, n: nat)
    requires 2 <= n < |keys|
  {
    keys[n] == NextKey(keys[n - 2], keys[n - 1], n)
  }

  lemma {:induction false} WordsAre(key: seq<Byte>, keys: seq<Quad>, n: nat)
    requires |key| == 32 && Scheduled(key, keys) && n <= ROUNDS
    ensures Words(key, n) == keys[n]
  {
    hide Words, NextKey, KeyWord;
    if n >= 2 {
      WordsAre(key, keys, n - 2);
      WordsAre(key, keys, n - 1);
      WordsFollow(key, n);
      assert Follows(keys, n);
    }
  }

  lemma WordsOf(key: seq<Byte>, n: nat)
    requires |key| == 32 && n <= ROUNDS
    ensures Words(key, n) == Quad(Col(KeyWord(key, 4 * n)), Col(KeyWord(key, 4 * n + 1)), Col(KeyWord(key, 4 * n + 2)), Col(KeyWord(key, 4 * n + 3)))
  {
  }

  lemma FirstWord(key: seq<Byte>, i: nat)
    requires |key| == 32 && i < 8
    ensures Col(KeyWord(key, i)) == Column(key[4 * i], key[4 * i + 1], key[4 * i + 2], key[4 * i + 3])
  {
  }

  lemma RoundKeysAre(key: seq<Byte>, keys: seq<Quad>, n: nat)
    requires |key| == 32 && Scheduled(key, keys) && n <= ROUNDS
    ensures RoundKey(ExpandKey(key), n) == Of(keys[n])
  {
    hide KeyWord, ExpandKey, RoundKey, ColumnAt, Of, Words, NextKey;
    WordsAre(key, keys, n);
    WordsOf(key, n);
    KeyColumn(key, n, 0);
    KeyColumn(key, n, 1);
    KeyColumn(key, n, 2);
    KeyColumn(key, n, 3);
    IsOf(RoundKey(ExpandKey(key), n), keys[n]);
  }

  // ---- blocks ------------------------------------------------------------------------------------------

  /** The block after the initial key and `n` full rounds. */
  function Walk(keys: seq<Quad>, b: Quad, n: nat): Quad
    requires n < |keys|
  {
    if n == 0 then Keyed(b, keys[0]) else Next(Walk(keys, b, n - 1), keys[n])
  }

  lemma {:induction false} WalkIs(key: seq<Byte>, keys: seq<Quad>, b: Quad, n: nat)
    requires |key| == 32 && Scheduled(key, keys) && n < ROUNDS
    ensures AfterRounds(ExpandKey(key), Of(b), n) == Of(Walk(keys, b, n))
  {
    hide AddKey, MixColumns, ShiftRows, SubBytes, Of, Next, ExpandKey, RoundKey, Keyed;
    RoundKeysAre(key, keys, n);
    hide Scheduled;
    if n == 0 {
      KeyedOf(b, keys[0]);
    } else {
      WalkIs(key, keys, b, n - 1);
      NextOf(Walk(keys, b, n - 1), keys[n]);
    }
  }

  /** The block enciphered. */
  function Walked(keys: seq<Quad>, b: Quad): Quad
    requires |keys| == ROUNDS + 1
  {
    Keyed(Shifted(Walk(keys, b, 13)), keys[14])
  }

  lemma WalkedIs(key: seq<Byte>, keys: seq<Quad>, b: Quad)
    requires |key| == 32 && Scheduled(key, keys)
    ensures Encrypt(ExpandKey(key), Of(b)) == Of(Walked(keys, b))
  {
    hide AddKey, ShiftRows, SubBytes, Of, ExpandKey, RoundKey, AfterRounds, Walk, Next, Keyed, Shifted;
    RoundKeysAre(key, keys, 14);
    WalkIs(key, keys, b, 13);
    NextOf(Walk(keys, b, 13), keys[14]);
  }

  lemma Begin(keys: seq<Quad>, b: Quad, key: Quad, now: Quad)
    requires |keys| == ROUNDS + 1 && keys[0] == key && Keyed(b, key) == now
    ensures Walk(keys, b, 0) == now
  {
  }

  lemma Step(keys: seq<Quad>, b: Quad, n: nat, key: Quad, was: Quad, now: Quad) returns (r: Quad)
    requires 0 < n < |keys| && keys[n] == key && Walk(keys, b, n - 1) == was && Next(was, key) == now
    ensures r == now && Walk(keys, b, n) == now
  {
    r := now;
  }

  lemma Finish(keys: seq<Quad>, b: Quad, key: Quad, was: Quad, now: Quad)
    requires |keys| == ROUNDS + 1 && keys[14] == key && Walk(keys, b, 13) == was && Keyed(Shifted(was), key) == now
    ensures Walked(keys, b) == now
  {
  }

  // ---- the S-box, value by value --------------------------------------------------------------------

  lemma SboxValues0()
    ensures Sbox(0x00) == 0x63 && Sbox(0x01) == 0x7C && Sbox(0x02) == 0x77 && Sbox(0x03) == 0x7B
    ensures Sbox(0x04) == 0xF2 && Sbox(0x05) == 0x6B && Sbox(0x06) == 0x6F && Sbox(0x07) == 0xC5
    ensures Sbox(0x08) == 0x30 && Sbox(0x09) == 0x01 && Sbox(0x0A) == 0x67 && Sbox(0x0B) == 0x2B
    ensures Sbox(0x0C) == 0xFE && Sbox(0x0D) == 0xD7 && Sbox(0x0E) == 0xAB && Sbox(0x0F) == 0x76
    ensures Sbox(0x10) == 0xCA && Sbox(0x11) == 0x82 && Sbox(0x12) == 0xC9 && Sbox(0x13) == 0x7D
    ensures Sbox(0x14) == 0xFA && Sbox(0x15) == 0x59 && Sbox(0x16) == 0x47 && Sbox(0x17) == 0xF0
    ensures Sbox(0x18) == 0xAD && Sbox(0x19) == 0xD4 && Sbox(0x1A) == 0xA2 && Sbox(0x1B) == 0xAF
    ensures Sbox(0x1C) == 0x9C && Sbox(0x1D) == 0xA4 && Sbox(0x1E) == 0x72 && Sbox(0x1F) == 0xC0
    ensures Sbox(0x20) == 0xB7 && Sbox(0x21) == 0xFD && Sbox(0x22) == 0x93 && Sbox(0x23) == 0x26
    ensures Sbox(0x24) == 0x36 && Sbox(0x25) == 0x3F && Sbox(0x26) == 0xF7 && Sbox(0x27) == 0xCC
    ensures Sbox(0x28) == 0x34 && Sbox(0x29) == 0xA5 && Sbox(0x2A) == 0xE5 && Sbox(0x2B) == 0xF1
    ensures Sbox(0x2C) == 0x71 && Sbox(0x2D) == 0xD8 && Sbox(0x2E) == 0x31 && Sbox(0x2F) == 0x15
    ensures Sbox(0x30) == 0x04 && Sbox(0x31) == 0xC7 && Sbox(0x32) == 0x23 && Sbox(0x33) == 0xC3
    ensures Sbox(0x34) == 0x18 && Sbox(0x35) == 0x96 && Sbox(0x36) == 0x05 && Sbox(0x37) == 0x9A
    ensures Sbox(0x38) == 0x07 && Sbox(0x39) == 0x12 && Sbox(0x3A) == 0x80 && Sbox(0x3B) == 0xE2
    ensures Sbox(0x3C) == 0xEB && Sbox(0x3D) == 0x27 && Sbox(0x3E) == 0xB2 && Sbox(0x3F) == 0x75
  {
  }

  lemma SboxValues1()
    ensures Sbox(0x40) == 0x09 && Sbox(0x41) == 0x83 && Sbox(0x42) == 0x2C && Sbox(0x43) == 0x1A
    ensures Sbox(0x44) == 0x1B && Sbox(0x45) == 0x6E && Sbox(0x46) == 0x5A && Sbox(0x47) == 0xA0
    ensures Sbox(0x48) == 0x52 && Sbox(0x49) == 0x3B && Sbox(0x4A) == 0xD6 && Sbox(0x4B) == 0xB3
    ensures Sbox(0x4C) == 0x29 && Sbox(0x4D) == 0xE3 && Sbox(0x4E) == 0x2F && Sbox(0x4F) == 0x84
    ensures Sbox(0x50) == 0x53 && Sbox(0x51) == 0xD1 && Sbox(0x52) == 0x00 && Sbox(0x53) == 0xED
    ensures Sbox(0x54) == 0x20 && Sbox(0x55) == 0xFC && Sbox(0x56) == 0xB1 && Sbox(0x57) == 0x5B
    ensures Sbox(0x58) == 0x6A && Sbox(0x59) == 0xCB && Sbox(0x5A) == 0xBE && Sbox(0x5B) == 0x39
    ensures Sbox(0x5C) == 0x4A && Sbox(0x5D) == 0x4C && Sbox(0x5E) == 0x58 && Sbox(0x5F) == 0xCF
    ensures Sbox(0x60) == 0xD0 && Sbox(0x61) == 0xEF && Sbox(0x62) == 0xAA && Sbox(0x63) == 0xFB
    ensures Sbox(0x64) == 0x43 && Sbox(0x65) == 0x4D && Sbox(0x66) == 0x33 && Sbox(0x67) == 0x85
    ensures Sbox(0x68) == 0x45 && Sbox(0x69) == 0xF9 && Sbox(0x6A) == 0x02 && Sbox(0x6B) == 0x7F
    ensures Sbox(0x6C) == 0x50 && Sbox(0x6D) == 0x3C && Sbox(0x6E) == 0x9F && Sbox(0x6F) == 0xA8
    ensures Sbox(0x70) == 0x51 && Sbox(0x71) == 0xA3 && Sbox(0x72) == 0x40 && Sbox(0x73) == 0x8F
    ensures Sbox(0x74) == 0x92 && Sbox(0x75) == 0x9D && Sbox(0x76) == 0x38 && Sbox(0x77) == 0xF5
    ensures Sbox(0x78) == 0xBC && Sbox(0x79) == 0xB6 && Sbox(0x7A) == 0xDA && Sbox(0x7B) == 0x21
    ensures Sbox(0x7C) == 0x10 && Sbox(0x7D) == 0xFF && Sbox(0x7E) == 0xF3 && Sbox(0x7F) == 0xD2
  {
  }

  lemma SboxValues2()
    ensures Sbox(0x80) == 0xCD && Sbox(0x81) == 0x0C && Sbox(0x82) == 0x13 && Sbox(0x83) == 0xEC
    ensures Sbox(0x84) == 0x5F && Sbox(0x85) == 0x97 && Sbox(0x86) == 0x44 && Sbox(0x87) == 0x17
    ensures Sbox(0x88) == 0xC4 && Sbox(0x89) == 0xA7 && Sbox(0x8A) == 0x7E && Sbox(0x8B) == 0x3D
    ensures Sbox(0x8C) == 0x64 && Sbox(0x8D) == 0x5D && Sbox(0x8E) == 0x19 && Sbox(0x8F) == 0x73
    ensures Sbox(0x90) == 0x60 && Sbox(0x91) == 0x81 && Sbox(0x92) == 0x4F && Sbox(0x93) == 0xDC
    ensures Sbox(0x94) == 0x22 && Sbox(0x95) == 0x2A && Sbox(0x96) == 0x90 && Sbox(0x97) == 0x88
    ensures Sbox(0x98) == 0x46 && Sbox(0x99) == 0xEE && Sbox(0x9A) == 0xB8 && Sbox(0x9B) == 0x14
    ensures Sbox(0x9C) == 0xDE && Sbox(0x9D) == 0x5E && Sbox(0x9E) == 0x0B && Sbox(0x9F) == 0xDB
    ensures Sbox(0xA0) == 0xE0 && Sbox(0xA1) == 0x32 && Sbox(0xA2) == 0x3A && Sbox(0xA3) == 0x0A
    ensures Sbox(0xA4) == 0x49 && Sbox(0xA5) == 0x06 && Sbox(0xA6) == 0x24 && Sbox(0xA7) == 0x5C
    ensures Sbox(0xA8) == 0xC2 && Sbox(0xA9) == 0xD3 && Sbox(0xAA) == 0xAC && Sbox(0xAB) == 0x62
    ensures Sbox(0xAC) == 0x91 && Sbox(0xAD) == 0x95 && Sbox(0xAE) == 0xE4 && Sbox(0xAF) == 0x79
    ensures Sbox(0xB0) == 0xE7 && Sbox(0xB1) == 0xC8 && Sbox(0xB2) == 0x37 && Sbox(0xB3) == 0x6D
    ensures Sbox(0xB4) == 0x8D && Sbox(0xB5) == 0xD5 && Sbox(0xB6) == 0x4E && Sbox(0xB7) == 0xA9
    ensures Sbox(0xB8) == 0x6C && Sbox(0xB9) == 0x56 && Sbox(0xBA) == 0xF4 && Sbox(0xBB) == 0xEA
    ensures Sbox(0xBC) == 0x65 && Sbox(0xBD) == 0x7A && Sbox(0xBE) == 0xAE && Sbox(0xBF) == 0x08
  {
  }

  lemma SboxValues3()
    ensures Sbox(0xC0) == 0xBA && Sbox(0xC1) == 0x78 && Sbox(0xC2) == 0x25 && Sbox(0xC3) == 0x2E
    ensures Sbox(0xC4) == 0x1C && Sbox(0xC5) == 0xA6 && Sbox(0xC6) == 0xB4 && Sbox(0xC7) == 0xC6
    ensures Sbox(0xC8) == 0xE8 && Sbox(0xC9) == 0xDD && Sbox(0xCA) == 0x74 && Sbox(0xCB) == 0x1F
    ensures Sbox(0xCC) == 0x4B && Sbox(0xCD) == 0xBD && Sbox(0xCE) == 0x8B && Sbox(0xCF) == 0x8A
    ensures Sbox(0xD0) == 0x70 && Sbox(0xD1) == 0x3E && Sbox(0xD2) == 0xB5 && Sbox(0xD3) == 0x66
    ensures Sbox(0xD4) == 0x48 && Sbox(0xD5) == 0x03 && Sbox(0xD6) == 0xF6 && Sbox(0xD7) == 0x0E
    ensures Sbox(0xD8) == 0x61 && Sbox(0xD9) == 0x35 && Sbox(0xDA) == 0x57 && Sbox(0xDB) == 0xB9
    ensures Sbox(0xDC) == 0x86 && Sbox(0xDD) == 0xC1 && Sbox(0xDE) == 0x1D && Sbox(0xDF) == 0x9E
    ensures Sbox(0xE0) == 0xE1 && Sbox(0xE1) == 0xF8 && Sbox(0xE2) == 0x98 && Sbox(0xE3) == 0x11
    ensures Sbox(0xE4) == 0x69 && Sbox(0xE5) == 0xD9 && Sbox(0xE6) == 0x8E && Sbox(0xE7) == 0x94
    ensures Sbox(0xE8) == 0x9B && Sbox(0xE9) == 0x1E && Sbox(0xEA) == 0x87 && Sbox(0xEB) == 0xE9
    ensures Sbox(0xEC) == 0xCE && Sbox(0xED) == 0x55 && Sbox(0xEE) == 0x28 && Sbox(0xEF) == 0xDF
    ensures Sbox(0xF0) == 0x8C && Sbox(0xF1) == 0xA1 && Sbox(0xF2) == 0x89 && Sbox(0xF3) == 0x0D
    ensures Sbox(0xF4) == 0xBF && Sbox(0xF5) == 0xE6 && Sbox(0xF6) == 0x42 && Sbox(0xF7) == 0x68
    ensures Sbox(0xF8) == 0x41 && Sbox(0xF9) == 0x99 && Sbox(0xFA) == 0x2D && Sbox(0xFB) == 0x0F
    ensures Sbox(0xFC) == 0xB0 && Sbox(0xFD) == 0x54 && Sbox(0xFE) == 0xBB && Sbox(0xFF) == 0x16
  {
  }

  lemma RconValues()
    ensures Rcon(1) == 1 && Rcon(2) == 2 && Rcon(3) == 4 && Rcon(4) == 8 && Rcon(5) == 16 && Rcon(6) == 32 && Rcon(7) == 64
  {
  }
}
