/** One AES-256 key, and six blocks taken through all rounds under it: a block of a few bytes and
    zeros, three times, and a block whose ciphertext is that of the first but for those bytes. */
module KnownBlocks {
  import opened Gf256
  import opened Substitution
  import opened BlockCipher
  import opened ColumnRounds

  function Zeros(n: nat): (r: seq<Byte>)
    ensures |r| == n && forall i :: 0 <= i < n ==> r[i] == 0
  {
    seq(n, i => 0)
  }

  const KEY: seq<Byte> := [0x3A, 0xA8, 0x81] + Zeros(29)

  // The round keys, by columns.
  const KEY0: Quad := Quad(Column(0x3A, 0xA8, 0x81, 0x00), Column(0x00, 0x00, 0x00, 0x00), Column(0x00, 0x00, 0x00, 0x00), Column(0x00, 0x00, 0x00, 0x00))
  const KEY1: Quad := Quad(Column(0x00, 0x00, 0x00, 0x00), Column(0x00, 0x00, 0x00, 0x00), Column(0x00, 0x00, 0x00, 0x00), Column(0x00, 0x00, 0x00, 0x00))
  const KEY2: Quad := Quad(Column(0x58, 0xCB, 0xE2, 0x63), Column(0x58, 0xCB, 0xE2, 0x63), Column(0x58, 0xCB, 0xE2, 0x63), Column(0x58, 0xCB, 0xE2, 0x63))
  const KEY3: Quad := Quad(Column(0x6A, 0x1F, 0x98, 0xFB), Column(0x6A, 0x1F, 0x98, 0xFB), Column(0x6A, 0x1F, 0x98, 0xFB), Column(0x6A, 0x1F, 0x98, 0xFB))
  const KEY4: Quad := Quad(Column(0x9A, 0x8D, 0xED, 0x61), Column(0xC2, 0x46, 0x0F, 0x02), Column(0x9A, 0x8D, 0xED, 0x61), Column(0xC2, 0x46, 0x0F, 0x02))
  const KEY5: Quad := Quad(Column(0x4F, 0x45, 0xEE, 0x8C), Column(0x25, 0x5A, 0x76, 0x77), Column(0x4F, 0x45, 0xEE, 0x8C), Column(0x25, 0x5A, 0x76, 0x77))
  const KEY6: Quad := Quad(Column(0x20, 0xB5, 0x18, 0x5E), Column(0xE2, 0xF3, 0x17, 0x5C), Column(0x78, 0x7E, 0xFA, 0x3D), Column(0xBA, 0x38, 0xF5, 0x3F))
  const KEY7: Quad := Quad(Column(0xBB, 0x42, 0x08, 0xF9), Column(0x9E, 0x18, 0x7E, 0x8E), Column(0xD1, 0x5D, 0x90, 0x02), Column(0xF4, 0x07, 0xE6, 0x75))
  const KEY8: Quad := Quad(Column(0xED, 0x3B, 0x85, 0xE1), Column(0x0F, 0xC8, 0x92, 0xBD), Column(0x77, 0xB6, 0x68, 0x80), Column(0xCD, 0x8E, 0x9D, 0xBF))
  const KEY9: Quad := Quad(Column(0x06, 0x5B, 0x56, 0xF1), Column(0x98, 0x43, 0x28, 0x7F), Column(0x49, 0x1E, 0xB8, 0x7D), Column(0xBD, 0x19, 0x5E, 0x08))
  const KEY10: Quad := Quad(Column(0x29, 0x63, 0xB5, 0x9B), Column(0x26, 0xAB, 0x27, 0x26), Column(0x51, 0x1D, 0x4F, 0xA6), Column(0x9C, 0x93, 0xD2, 0x19))
  const KEY11: Quad := Quad(Column(0xD8, 0x87, 0xE3, 0x25), Column(0x40, 0xC4, 0xCB, 0x5A), Column(0x09, 0xDA, 0x73, 0x27), Column(0xB4, 0xC3, 0x2D, 0x2F))
  const KEY12: Quad := Quad(Column(0x27, 0xBB, 0xA0, 0x16), Column(0x01, 0x10, 0x87, 0x30), Column(0x50, 0x0D, 0xC8, 0x96), Column(0xCC, 0x9E, 0x1A, 0x8F))
  const KEY13: Quad := Quad(Column(0x93, 0x8C, 0x41, 0x56), Column(0xD3, 0x48, 0x8A, 0x0C), Column(0xDA, 0x92, 0xF9, 0x2B), Column(0x6E, 0x51, 0xD4, 0x04))
  const KEY14: Quad := Quad(Column(0xB6, 0xF3, 0x52, 0x89), Column(0xB7, 0xE3, 0xD5, 0xB9), Column(0xE7, 0xEE, 0x1D, 0x2F), Column(0x2B, 0x70, 0x07, 0xA0))

  const KEYS: seq<Quad> := [KEY0, KEY1, KEY2, KEY3, KEY4, KEY5, KEY6, KEY7, KEY8, KEY9, KEY10, KEY11, KEY12, KEY13, KEY14]

  lemma KeysFrom2()
    ensures NextKey(KEY0, KEY1, 2) == KEY2
    ensures NextKey(KEY1, KEY2, 3) == KEY3
    ensures NextKey(KEY2, KEY3, 4) == KEY4
  {
    hide Sbox, Rcon;
    RconValues();
    SboxValues0(); SboxValues1(); SboxValues2(); SboxValues3();
  }

  lemma KeysFrom5()
    ensures NextKey(KEY3, KEY4, 5) == KEY5
    ensures NextKey(KEY4, KEY5, 6) == KEY6
    ensures NextKey(KEY5, KEY6, 7) == KEY7
  {
    hide Sbox, Rcon;
    RconValues();
    SboxValues0(); SboxValues1(); SboxValues2(); SboxValues3();
  }

  lemma KeysFrom8()
    ensures NextKey(KEY6, KEY7, 8) == KEY8
    ensures NextKey(KEY7, KEY8, 9) == KEY9
    ensures NextKey(KEY8, KEY9, 10) == KEY10
  {
    hide Sbox, Rcon;
    RconValues();
    SboxValues0(); SboxValues1(); SboxValues2(); SboxValues3();
  }

  lemma KeysFrom11()
    ensures NextKey(KEY9, KEY10, 11) == KEY11
    ensures NextKey(KEY10, KEY11, 12) == KEY12
    ensures NextKey(KEY11, KEY12, 13) == KEY13
    ensures NextKey(KEY12, KEY13, 14) == KEY14
  {
    hide Sbox, Rcon;
    RconValues();
    SboxValues0(); SboxValues1(); SboxValues2(); SboxValues3();
  }

  lemma FirstWords()
    ensures Words(KEY, 0) == KEY0 && Words(KEY, 1) == KEY1
  {
    hide KeyWord, Col, Words;
    FirstWord(KEY, 0); FirstWord(KEY, 1); FirstWord(KEY, 2); FirstWord(KEY, 3);
    FirstWord(KEY, 4); FirstWord(KEY, 5); FirstWord(KEY, 6); FirstWord(KEY, 7);
    WordsOf(KEY, 0);
    WordsOf(KEY, 1);
  }

  lemma KeysNamed()
    ensures |KEYS| == ROUNDS + 1
    ensures KEYS[0] == KEY0 && KEYS[1] == KEY1 && KEYS[2] == KEY2 && KEYS[3] == KEY3 && KEYS[4] == KEY4
    ensures KEYS[5] == KEY5 && KEYS[6] == KEY6 && KEYS[7] == KEY7 && KEYS[8] == KEY8 && KEYS[9] == KEY9
    ensures KEYS[10] == KEY10 && KEYS[11] == KEY11 && KEYS[12] == KEY12 && KEYS[13] == KEY13 && KEYS[14] == KEY14
  {
  }

  lemma KeysAreScheduled()
    ensures Scheduled(KEY, KEYS)
  {
    hide NextKey, Words;
    KeysNamed();
    FirstWords();
    KeysFrom2();
    KeysFrom5();
    KeysFrom8();
    KeysFrom11();
    forall n: nat | 2 <= n <= ROUNDS
      ensures Follows(KEYS, n)
    {
      assert n == 2 || n == 3 || n == 4 || n == 5 || n == 6 || n == 7 || n == 8 || n == 9 || n == 10 || n == 11 || n == 12 || n == 13 || n == 14;
    }
  }

  // The blocks and their ciphertexts, by columns.
  const PLAIN0: Quad := Quad(Column(0x72, 0x00, 0x00, 0x00), Column(0x00, 0x00, 0x00, 0x00), Column(0x00, 0x00, 0x00, 0x00), Column(0x00, 0x00, 0x00, 0x00))
  const CIPHER0: Quad := Quad(Column(0x93, 0x00, 0x00, 0x00), Column(0x00, 0xC0, 0xDE, 0x8D), Column(0x56, 0xCF, 0x04, 0x67), Column(0xE0, 0x63, 0x91, 0xBD))
  const PLAIN1: Quad := Quad(Column(0xCF, 0xC9, 0xDF, 0xFF), Column(0x90, 0xCC, 0x54, 0x7D), Column(0x6C, 0xDC, 0x8F, 0x0A), Column(0x00, 0x8B, 0x18, 0xB9))
  const CIPHER1: Quad := Quad(Column(0x72, 0x00, 0x00, 0x00), Column(0x00, 0xC0, 0xDE, 0x8D), Column(0x56, 0xCF, 0x04, 0x67), Column(0xE0, 0x63, 0x91, 0xBD))
  const PLAIN2: Quad := Quad(Column(0xEA, 0x3E, 0x7E, 0x7B), Column(0x00, 0x00, 0x00, 0x00), Column(0x00, 0x00, 0x00, 0x00), Column(0x00, 0x00, 0x00, 0x00))
  const CIPHER2: Quad := Quad(Column(0x9E, 0xDB, 0xC4, 0xC2), Column(0xDF, 0xCE, 0x00, 0x00), Column(0x00, 0x00, 0x5D, 0x98), Column(0x57, 0x04, 0x34, 0x1D))
  const PLAIN3: Quad := Quad(Column(0xDE, 0xE1, 0x69, 0x6C), Column(0x79, 0x10, 0x00, 0x80), Column(0x03, 0xCF, 0x8D, 0x10), Column(0x1F, 0x10, 0xD5, 0x06))
  const CIPHER3: Quad := Quad(Column(0xEA, 0x3E, 0x7E, 0x7B), Column(0x00, 0x00, 0x00, 0x00), Column(0x00, 0x00, 0x5D, 0x98), Column(0x57, 0x04, 0x34, 0x1D))
  const PLAIN4: Quad := Quad(Column(0xB9, 0xF8, 0x8E, 0x6C), Column(0x02, 0x00, 0x00, 0x00), Column(0x00, 0x00, 0x00, 0x00), Column(0x00, 0x00, 0x00, 0x00))
  const CIPHER4: Quad := Quad(Column(0x24, 0x2A, 0x37, 0xD7), Column(0x26, 0x9A, 0xB3, 0xF6), Column(0x2E, 0x94, 0xAD, 0x00), Column(0x00, 0x00, 0x00, 0xE0))
  const PLAIN5: Quad := Quad(Column(0xDD, 0xA7, 0xBB, 0xED), Column(0xDE, 0x6A, 0x87, 0x27), Column(0x6D, 0x6D, 0x7B, 0xFC), Column(0xD7, 0x64, 0x2F, 0x08))
  const CIPHER5: Quad := Quad(Column(0xB9, 0xF8, 0x8E, 0x6C), Column(0x02, 0x00, 0x00, 0x00), Column(0x00, 0x00, 0x00, 0x00), Column(0x00, 0x00, 0x00, 0xE0))

  lemma First0()
    ensures Walk(KEYS, PLAIN0, 4) == Quad(Column(0x19, 0xC8, 0x26, 0x2A), Column(0x72, 0x58, 0xE6, 0xDB), Column(0x60, 0x63, 0xBD, 0xBA), Column(0x04, 0x47, 0x8C, 0x00))
  {
    hide Walk, Walked, Sbox;
    KeysNamed();
    SboxValues0(); SboxValues1(); SboxValues2(); SboxValues3();
    var s := Quad(Column(0x48, 0xA8, 0x81, 0x00), Column(0x00, 0x00, 0x00, 0x00), Column(0x00, 0x00, 0x00, 0x00), Column(0x00, 0x00, 0x00, 0x00));
    Begin(KEYS, PLAIN0, KEY0, s);
    s := Step(KEYS, PLAIN0, 1, KEY1, s, Quad(Column(0x01, 0x52, 0x52, 0x30), Column(0x63, 0x63, 0x63, 0x63), Column(0x0C, 0xD2, 0xBD, 0x0C), Column(0x9B, 0x3A, 0xC2, 0xC2)));
    s := Step(KEYS, PLAIN0, 2, KEY2, s, Quad(Column(0xE9, 0xF1, 0xFE, 0x2C), Column(0x50, 0x2A, 0xEA, 0xED), Column(0xDF, 0xD5, 0x8A, 0x17), Column(0x75, 0x37, 0x02, 0x43)));
    s := Step(KEYS, PLAIN0, 3, KEY3, s, Quad(Column(0x06, 0x48, 0xB1, 0x76), Column(0xCF, 0xA2, 0xB5, 0x98), Column(0x16, 0x2D, 0x0E, 0xC9), Column(0xC4, 0xB9, 0xBA, 0x9A)));
    s := Step(KEYS, PLAIN0, 4, KEY4, s, Quad(Column(0x19, 0xC8, 0x26, 0x2A), Column(0x72, 0x58, 0xE6, 0xDB), Column(0x60, 0x63, 0xBD, 0xBA), Column(0x04, 0x47, 0x8C, 0x00)));
  }

  lemma Second0()
    ensures Walk(KEYS, PLAIN0, 8) == Quad(Column(0xA8, 0x9F, 0x08, 0x9E), Column(0xB5, 0x30, 0x35, 0x99), Column(0xEE, 0xD8, 0x98, 0x0C), Column(0xD2, 0x5D, 0x17, 0xC1))
  {
    hide Walk, Walked, Sbox;
    KeysNamed();
    First0();
    SboxValues0(); SboxValues1(); SboxValues2(); SboxValues3();
    var s := Quad(Column(0x19, 0xC8, 0x26, 0x2A), Column(0x72, 0x58, 0xE6, 0xDB), Column(0x60, 0x63, 0xBD, 0xBA), Column(0x04, 0x47, 0x8C, 0x00));
    s := Step(KEYS, PLAIN0, 5, KEY5, s, Quad(Column(0x5B, 0xA8, 0x01, 0x3D), Column(0x32, 0xBE, 0x31, 0xF9), Column(0x41, 0x75, 0xBB, 0xD9), Column(0x83, 0x1E, 0x6C, 0xEF)));
    s := Step(KEYS, PLAIN0, 6, KEY6, s, Quad(Column(0x8E, 0x31, 0x3A, 0xF4), Column(0x6F, 0x26, 0x60, 0xBA), Column(0x16, 0x04, 0x43, 0x84), Column(0xD6, 0x2C, 0x11, 0x7F)));
    s := Step(KEYS, PLAIN0, 7, KEY7, s, Quad(Column(0x43, 0x52, 0xBF, 0x80), Column(0xE5, 0x6D, 0xE1, 0x78), Column(0xB8, 0x97, 0xBA, 0xC9), Column(0xDE, 0x50, 0x8D, 0xDD)));
    s := Step(KEYS, PLAIN0, 8, KEY8, s, Quad(Column(0xA8, 0x9F, 0x08, 0x9E), Column(0xB5, 0x30, 0x35, 0x99), Column(0xEE, 0xD8, 0x98, 0x0C), Column(0xD2, 0x5D, 0x17, 0xC1)));
  }

  lemma Third0()
    ensures Walk(KEYS, PLAIN0, 11) == Quad(Column(0xE2, 0x96, 0xD9, 0x85), Column(0xE4, 0x79, 0xC5, 0xAE), Column(0x47, 0xC0, 0xD6, 0x0B), Column(0xEC, 0xBF, 0xD8, 0x56))
  {
    hide Walk, Walked, Sbox;
    KeysNamed();
    Second0();
    SboxValues0(); SboxValues1(); SboxValues2(); SboxValues3();
    var s := Quad(Column(0xA8, 0x9F, 0x08, 0x9E), Column(0xB5, 0x30, 0x35, 0x99), Column(0xEE, 0xD8, 0x98, 0x0C), Column(0xD2, 0x5D, 0x17, 0xC1));
    s := Step(KEYS, PLAIN0, 9, KEY9, s, Quad(Column(0xAB, 0x23, 0x94, 0x1E), Column(0x71, 0x54, 0x7A, 0x9C), Column(0x13, 0x10, 0x95, 0xBE), Column(0xD2, 0x5E, 0x1E, 0x66)));
    s := Step(KEYS, PLAIN0, 10, KEY10, s, Quad(Column(0x94, 0x0C, 0xF6, 0x51), Column(0x3E, 0x63, 0x3C, 0x84), Column(0xBF, 0x68, 0x57, 0xFC), Column(0xF3, 0xB1, 0x07, 0x66)));
    s := Step(KEYS, PLAIN0, 11, KEY11, s, Quad(Column(0xE2, 0x96, 0xD9, 0x85), Column(0xE4, 0x79, 0xC5, 0xAE), Column(0x47, 0xC0, 0xD6, 0x0B), Column(0xEC, 0xBF, 0xD8, 0x56)));
  }

  lemma Whole0()
    ensures Walked(KEYS, PLAIN0) == CIPHER0
  {
    hide Walk, Walked, Sbox;
    KeysNamed();
    Third0();
    SboxValues0(); SboxValues1(); SboxValues2(); SboxValues3();
    var s := Quad(Column(0xE2, 0x96, 0xD9, 0x85), Column(0xE4, 0x79, 0xC5, 0xAE), Column(0x47, 0xC0, 0xD6, 0x0B), Column(0xEC, 0xBF, 0xD8, 0x56));
    s := Step(KEYS, PLAIN0, 12, KEY12, s, Quad(Column(0x8A, 0xE4, 0xB1, 0x9C), Column(0xF0, 0x22, 0x34, 0x65), Column(0xC2, 0x06, 0x3D, 0x83), Column(0x6D, 0xB1, 0x6E, 0xA6)));
    s := Step(KEYS, PLAIN0, 13, KEY13, s, Quad(Column(0xC2, 0x82, 0x8E, 0x28), Column(0x20, 0x7E, 0x35, 0xD4), Column(0x56, 0x32, 0x48, 0xDE), Column(0x59, 0x7B, 0x9E, 0xF2)));
    Finish(KEYS, PLAIN0, KEY14, s, CIPHER0);
  }

  lemma First1()
    ensures Walk(KEYS, PLAIN1, 4) == Quad(Column(0xC7, 0xB4, 0x8B, 0x7B), Column(0x4A, 0xAC, 0x84, 0x25), Column(0x1D, 0x06, 0xB3, 0x5D), Column(0x10, 0x40, 0x52, 0x17))
  {
    hide Walk, Walked, Sbox;
    KeysNamed();
    SboxValues0(); SboxValues1(); SboxValues2(); SboxValues3();
    var s := Quad(Column(0xF5, 0x61, 0x5E, 0xFF), Column(0x90, 0xCC, 0x54, 0x7D), Column(0x6C, 0xDC, 0x8F, 0x0A), Column(0x00, 0x8B, 0x18, 0xB9));
    Begin(KEYS, PLAIN1, KEY0, s);
    s := Step(KEYS, PLAIN1, 1, KEY1, s, Quad(Column(0x2F, 0xB3, 0xB1, 0xA5), Column(0xEA, 0x8D, 0x9D, 0xA7), Column(0x40, 0x3D, 0xC7, 0x70), Column(0xAB, 0xA1, 0x65, 0xA4)));
    s := Step(KEYS, PLAIN1, 2, KEY2, s, Quad(Column(0x1A, 0x7C, 0xE6, 0x55), Column(0x6F, 0xD3, 0xD2, 0x97), Column(0x88, 0xB9, 0xB6, 0x3A), Column(0x24, 0xC0, 0xA2, 0x54)));
    s := Step(KEYS, PLAIN1, 3, KEY3, s, Quad(Column(0xF1, 0x83, 0xA0, 0x6E), Column(0x1D, 0xA9, 0x0D, 0x97), Column(0x2A, 0xB5, 0x62, 0x93), Column(0x03, 0x4D, 0x54, 0x1F)));
    s := Step(KEYS, PLAIN1, 4, KEY4, s, Quad(Column(0xC7, 0xB4, 0x8B, 0x7B), Column(0x4A, 0xAC, 0x84, 0x25), Column(0x1D, 0x06, 0xB3, 0x5D), Column(0x10, 0x40, 0x52, 0x17)));
  }

  lemma Second1()
    ensures Walk(KEYS, PLAIN1, 8) == Quad(Column(0x6E, 0x47, 0xBA, 0x87), Column(0x3D, 0x61, 0xBF, 0x33), Column(0xEB, 0xE6, 0xEA, 0x42), Column(0x91, 0xE9, 0x11, 0x85))
  {
    hide Walk, Walked, Sbox;
    KeysNamed();
    First1();
    SboxValues0(); SboxValues1(); SboxValues2(); SboxValues3();
    var s := Quad(Column(0xC7, 0xB4, 0x8B, 0x7B), Column(0x4A, 0xAC, 0x84, 0x25), Column(0x1D, 0x06, 0xB3, 0x5D), Column(0x10, 0x40, 0x52, 0x17));
    s := Step(KEYS, PLAIN1, 5, KEY5, s, Quad(Column(0xED, 0xFD, 0x68, 0xDA), Column(0x02, 0x73, 0xAC, 0x3B), Column(0x05, 0x8B, 0x78, 0x31), Column(0x35, 0x3C, 0x5B, 0x78)));
    s := Step(KEYS, PLAIN1, 6, KEY6, s, Quad(Column(0x00, 0x86, 0x7E, 0xF1), Column(0x25, 0xE2, 0xD6, 0x6F), Column(0x2F, 0xF5, 0xCD, 0xF1), Column(0x27, 0x69, 0x5C, 0xCE)));
    s := Step(KEYS, PLAIN1, 7, KEY7, s, Quad(Column(0xF8, 0x5D, 0x14, 0x74), Column(0x3A, 0x8F, 0xCB, 0x3A), Column(0xB0, 0x07, 0x62, 0x7C), Column(0xEC, 0xE3, 0x61, 0xD1)));
    s := Step(KEYS, PLAIN1, 8, KEY8, s, Quad(Column(0x6E, 0x47, 0xBA, 0x87), Column(0x3D, 0x61, 0xBF, 0x33), Column(0xEB, 0xE6, 0xEA, 0x42), Column(0x91, 0xE9, 0x11, 0x85)));
  }

  lemma Third1()
    ensures Walk(KEYS, PLAIN1, 11) == Quad(Column(0x46, 0x50, 0x14, 0x9C), Column(0x3B, 0x2F, 0x19, 0xDD), Column(0x3E, 0x74, 0x79, 0x8B), Column(0xA9, 0xFE, 0x8D, 0x99))
  {
    hide Walk, Walked, Sbox;
    KeysNamed();
    Second1();
    SboxValues0(); SboxValues1(); SboxValues2(); SboxValues3();
    var s := Quad(Column(0x6E, 0x47, 0xBA, 0x87), Column(0x3D, 0x61, 0xBF, 0x33), Column(0xEB, 0xE6, 0xEA, 0x42), Column(0x91, 0xE9, 0x11, 0x85));
    s := Step(KEYS, PLAIN1, 9, KEY9, s, Quad(Column(0x19, 0x04, 0x91, 0x16), Column(0xCA, 0xE9, 0xA7, 0x34), Column(0x95, 0x0F, 0xE2, 0x2A), Column(0x7B, 0xF7, 0x1B, 0x60)));
    s := Step(KEYS, PLAIN1, 10, KEY10, s, Quad(Column(0xF0, 0xE8, 0x3F, 0xC1), Column(0xBC, 0x9E, 0xA9, 0xED), Column(0x24, 0x67, 0x3C, 0x01), Column(0x6A, 0x4C, 0x8D, 0x05)));
    s := Step(KEYS, PLAIN1, 11, KEY11, s, Quad(Column(0x46, 0x50, 0x14, 0x9C), Column(0x3B, 0x2F, 0x19, 0xDD), Column(0x3E, 0x74, 0x79, 0x8B), Column(0xA9, 0xFE, 0x8D, 0x99)));
  }

  lemma Whole1()
    ensures Walked(KEYS, PLAIN1) == CIPHER1
  {
    hide Walk, Walked, Sbox;
    KeysNamed();
    Third1();
    SboxValues0(); SboxValues1(); SboxValues2(); SboxValues3();
    var s := Quad(Column(0x46, 0x50, 0x14, 0x9C), Column(0x3B, 0x2F, 0x19, 0xDD), Column(0x3E, 0x74, 0x79, 0x8B), Column(0xA9, 0xFE, 0x8D, 0x99));
    s := Step(KEYS, PLAIN1, 12, KEY12, s, Quad(Column(0xF4, 0xE4, 0xB1, 0x9C), Column(0xF0, 0xF4, 0x34, 0x65), Column(0xC2, 0x06, 0x76, 0x83), Column(0x6D, 0xB1, 0x6E, 0x1C)));
    s := Step(KEYS, PLAIN1, 13, KEY13, s, Quad(Column(0x88, 0x82, 0x8E, 0x28), Column(0x20, 0x7E, 0x35, 0xD4), Column(0x56, 0x32, 0x48, 0xDE), Column(0x59, 0x7B, 0x9E, 0xF2)));
    Finish(KEYS, PLAIN1, KEY14, s, CIPHER1);
  }

  lemma First2()
    ensures Walk(KEYS, PLAIN2, 4) == Quad(Column(0x2F, 0xC7, 0xAE, 0x95), Column(0x14, 0x66, 0x10, 0xB1), Column(0x45, 0x67, 0x6A, 0x91), Column(0x0F, 0x69, 0x2F, 0xB9))
  {
    hide Walk, Walked, Sbox;
    KeysNamed();
    SboxValues0(); SboxValues1(); SboxValues2(); SboxValues3();
    var s := Quad(Column(0xD0, 0x96, 0xFF, 0x7B), Column(0x00, 0x00, 0x00, 0x00), Column(0x00, 0x00, 0x00, 0x00), Column(0x00, 0x00, 0x00, 0x00));
    Begin(KEYS, PLAIN2, KEY0, s);
    s := Step(KEYS, PLAIN2, 1, KEY1, s, Quad(Column(0x45, 0x70, 0x70, 0x56), Column(0x21, 0x21, 0xA5, 0xE7), Column(0x16, 0xFC, 0x89, 0x16), Column(0x6D, 0x9E, 0x90, 0x90)));
    s := Step(KEYS, PLAIN2, 2, KEY2, s, Quad(Column(0x5F, 0xD6, 0x84, 0x4B), Column(0xA3, 0x5C, 0xA7, 0xD6), Column(0x0E, 0xFD, 0xAB, 0xC3), Column(0x92, 0x18, 0x4A, 0xFE)));
    s := Step(KEYS, PLAIN2, 3, KEY3, s, Quad(Column(0xE8, 0x59, 0x0F, 0xF4), Column(0xE7, 0x6F, 0xBF, 0x1A), Column(0x62, 0xE2, 0x21, 0x18), Column(0x87, 0x6D, 0xEB, 0xDC)));
    s := Step(KEYS, PLAIN2, 4, KEY4, s, Quad(Column(0x2F, 0xC7, 0xAE, 0x95), Column(0x14, 0x66, 0x10, 0xB1), Column(0x45, 0x67, 0x6A, 0x91), Column(0x0F, 0x69, 0x2F, 0xB9)));
  }

  lemma Second2()
    ensures Walk(KEYS, PLAIN2, 8) == Quad(Column(0x98, 0x8F, 0x84, 0xD9), Column(0x06, 0xCB, 0x13, 0x36), Column(0xFE, 0xC7, 0x2C, 0x6E), Column(0x77, 0xC5, 0xA1, 0x3D))
  {
    hide Walk, Walked, Sbox;
    KeysNamed();
    First2();
    SboxValues0(); SboxValues1(); SboxValues2(); SboxValues3();
    var s := Quad(Column(0x2F, 0xC7, 0xAE, 0x95), Column(0x14, 0x66, 0x10, 0xB1), Column(0x45, 0x67, 0x6A, 0x91), Column(0x0F, 0x69, 0x2F, 0xB9));
    s := Step(KEYS, PLAIN2, 5, KEY5, s, Quad(Column(0x64, 0x66, 0x36, 0x2E), Column(0x61, 0xA4, 0x5D, 0xA6), Column(0xAF, 0x3D, 0xE9, 0xA8), Column(0xD3, 0x7F, 0xD1, 0xF8)));
    s := Step(KEYS, PLAIN2, 6, KEY6, s, Quad(Column(0x22, 0x07, 0xED, 0x4E), Column(0x41, 0x21, 0xF0, 0x0D), Column(0xC6, 0x93, 0x37, 0x29), Column(0xAD, 0x2E, 0x65, 0x75)));
    s := Step(KEYS, PLAIN2, 7, KEY7, s, Quad(Column(0x9D, 0x18, 0xF5, 0x11), Column(0x9E, 0xC0, 0xCA, 0xDF), Column(0x73, 0xA3, 0xDD, 0x14), Column(0xB8, 0x29, 0x41, 0xC9)));
    s := Step(KEYS, PLAIN2, 8, KEY8, s, Quad(Column(0x98, 0x8F, 0x84, 0xD9), Column(0x06, 0xCB, 0x13, 0x36), Column(0xFE, 0xC7, 0x2C, 0x6E), Column(0x77, 0xC5, 0xA1, 0x3D)));
  }

  lemma Third2()
    ensures Walk(KEYS, PLAIN2, 11) == Quad(Column(0x7F, 0x0C, 0x8C, 0x28), Column(0x3E, 0x63, 0x2A, 0x0D), Column(0x67, 0x20, 0xB6, 0xF2), Column(0xA7, 0xDF, 0x1F, 0x0B))
  {
    hide Walk, Walked, Sbox;
    KeysNamed();
    Second2();
    SboxValues0(); SboxValues1(); SboxValues2(); SboxValues3();
    var s := Quad(Column(0x98, 0x8F, 0x84, 0xD9), Column(0x06, 0xCB, 0x13, 0x36), Column(0xFE, 0xC7, 0x2C, 0x6E), Column(0x77, 0xC5, 0xA1, 0x3D));
    s := Step(KEYS, PLAIN2, 9, KEY9, s, Quad(Column(0xFD, 0x97, 0x84, 0x1B), Column(0x10, 0xD8, 0xBA, 0x50), Column(0x8F, 0x16, 0x14, 0x58), Column(0x3B, 0x12, 0x98, 0x27)));
    s := Step(KEYS, PLAIN2, 10, KEY10, s, Quad(Column(0x14, 0x2C, 0x20, 0x7F), Column(0x89, 0x8A, 0xCC, 0x27), Column(0xFB, 0x55, 0xBE, 0x03), Column(0x5E, 0x17, 0xF5, 0x8C)));
    s := Step(KEYS, PLAIN2, 11, KEY11, s, Quad(Column(0x7F, 0x0C, 0x8C, 0x28), Column(0x3E, 0x63, 0x2A, 0x0D), Column(0x67, 0x20, 0xB6, 0xF2), Column(0xA7, 0xDF, 0x1F, 0x0B)));
  }

  lemma Whole2()
    ensures Walked(KEYS, PLAIN2) == CIPHER2
  {
    hide Walk, Walked, Sbox;
    KeysNamed();
    Third2();
    SboxValues0(); SboxValues1(); SboxValues2(); SboxValues3();
    var s := Quad(Column(0x7F, 0x0C, 0x8C, 0x28), Column(0x3E, 0x63, 0x2A, 0x0D), Column(0x67, 0x20, 0xB6, 0xF2), Column(0xA7, 0xDF, 0x1F, 0x0B));
    s := Step(KEYS, PLAIN2, 12, KEY12, s, Quad(Column(0xEB, 0x7D, 0x68, 0x98), Column(0x48, 0xB8, 0x45, 0xE2), Column(0x4B, 0xD4, 0x79, 0x4D), Column(0x01, 0x98, 0xE9, 0x79)));
    s := Step(KEYS, PLAIN2, 13, KEY13, s, Quad(Column(0xEE, 0xCA, 0x72, 0xDB), Column(0xF7, 0xEE, 0x66, 0x20), Column(0xB0, 0xFA, 0x35, 0xCD), Column(0x01, 0x99, 0xB5, 0xCC)));
    Finish(KEYS, PLAIN2, KEY14, s, CIPHER2);
  }

  lemma First3()
    ensures Walk(KEYS, PLAIN3, 4) == Quad(Column(0x43, 0x9C, 0x9F, 0xEF), Column(0x4F, 0xB2, 0xEA, 0x85), Column(0xCC, 0xBE, 0x68, 0xC7), Column(0x83, 0x35, 0x87, 0xE7))
  {
    hide Walk, Walked, Sbox;
    KeysNamed();
    SboxValues0(); SboxValues1(); SboxValues2(); SboxValues3();
    var s := Quad(Column(0xE4, 0x49, 0xE8, 0x6C), Column(0x79, 0x10, 0x00, 0x80), Column(0x03, 0xCF, 0x8D, 0x10), Column(0x1F, 0x10, 0xD5, 0x06));
    Begin(KEYS, PLAIN3, KEY0, s);
    s := Step(KEYS, PLAIN3, 1, KEY1, s, Quad(Column(0xA5, 0x6E, 0xA8, 0xF2), Column(0xA1, 0xEC, 0xCA, 0xE8), Column(0xE5, 0x8F, 0xD0, 0x5D), Column(0x7F, 0xD9, 0x78, 0x8C)));
    s := Step(KEYS, PLAIN3, 2, KEY2, s, Quad(Column(0x09, 0xBE, 0x66, 0x1F), Column(0x9C, 0x49, 0x40, 0xF3), Column(0xF7, 0xBE, 0x27, 0xC9), Column(0x65, 0xEC, 0x93, 0x7D)));
    s := Step(KEYS, PLAIN3, 3, KEY3, s, Quad(Column(0x16, 0xD8, 0x3B, 0xEA), Column(0x38, 0x39, 0x10, 0x6B), Column(0xCD, 0xA8, 0x4F, 0xA4), Column(0xCD, 0xD3, 0x15, 0x2A)));
    s := Step(KEYS, PLAIN3, 4, KEY4, s, Quad(Column(0x43, 0x9C, 0x9F, 0xEF), Column(0x4F, 0xB2, 0xEA, 0x85), Column(0xCC, 0xBE, 0x68, 0xC7), Column(0x83, 0x35, 0x87, 0xE7)));
  }

  lemma Second3()
    ensures Walk(KEYS, PLAIN3, 8) == Quad(Column(0x09, 0xC3, 0xF1, 0x24), Column(0x24, 0x34, 0xF1, 0x1F), Column(0x13, 0x62, 0xD6, 0xED), Column(0xC9, 0xE2, 0x81, 0x07))
  {
    hide Walk, Walked, Sbox;
    KeysNamed();
    First3();
    SboxValues0(); SboxValues1(); SboxValues2(); SboxValues3();
    var s := Quad(Column(0x43, 0x9C, 0x9F, 0xEF), Column(0x4F, 0xB2, 0xEA, 0x85), Column(0xCC, 0xBE, 0x68, 0xC7), Column(0x83, 0x35, 0x87, 0xE7));
    s := Step(KEYS, PLAIN3, 5, KEY5, s, Quad(Column(0xF3, 0x6A, 0xEE, 0xE3), Column(0x17, 0x7F, 0x08, 0xFC), Column(0x34, 0xD8, 0x3C, 0x29), Column(0xDE, 0x45, 0x00, 0x96)));
    s := Step(KEYS, PLAIN3, 6, KEY6, s, Quad(Column(0x2C, 0xB1, 0xA1, 0x4B), Column(0xC8, 0x75, 0x73, 0x77), Column(0x62, 0x72, 0x17, 0x28), Column(0x13, 0xD4, 0x7E, 0x7B)));
    s := Step(KEYS, PLAIN3, 7, KEY7, s, Quad(Column(0x34, 0x38, 0x7C, 0x45), Column(0xD5, 0xCD, 0xE5, 0x63), Column(0x81, 0xC4, 0x12, 0x6C), Column(0xF6, 0x4F, 0x0A, 0xDD)));
    s := Step(KEYS, PLAIN3, 8, KEY8, s, Quad(Column(0x09, 0xC3, 0xF1, 0x24), Column(0x24, 0x34, 0xF1, 0x1F), Column(0x13, 0x62, 0xD6, 0xED), Column(0xC9, 0xE2, 0x81, 0x07)));
  }

  lemma Third3()
    ensures Walk(KEYS, PLAIN3, 11) == Quad(Column(0x1A, 0x01, 0x01, 0x98), Column(0x29, 0x98, 0x73, 0xA6), Column(0xBB, 0x25, 0x2A, 0x9B), Column(0xFE, 0x83, 0xF4, 0x77))
  {
    hide Walk, Walked, Sbox;
    KeysNamed();
    Second3();
    SboxValues0(); SboxValues1(); SboxValues2(); SboxValues3();
    var s := Quad(Column(0x09, 0xC3, 0xF1, 0x24), Column(0x24, 0x34, 0xF1, 0x1F), Column(0x13, 0x62, 0xD6, 0xED), Column(0xC9, 0xE2, 0x81, 0x07));
    s := Step(KEYS, PLAIN3, 9, KEY9, s, Quad(Column(0x1F, 0xAE, 0xEC, 0x8D), Column(0x2B, 0x18, 0xF6, 0xEF), Column(0x61, 0x70, 0x5F, 0x58), Column(0x9A, 0x35, 0x0B, 0x51)));
    s := Step(KEYS, PLAIN3, 10, KEY10, s, Quad(Column(0x40, 0x79, 0x35, 0x1B), Column(0x5A, 0xD8, 0x36, 0xEE), Column(0x24, 0x53, 0xCB, 0x71), Column(0xE8, 0x54, 0xB4, 0xB8)));
    s := Step(KEYS, PLAIN3, 11, KEY11, s, Quad(Column(0x1A, 0x01, 0x01, 0x98), Column(0x29, 0x98, 0x73, 0xA6), Column(0xBB, 0x25, 0x2A, 0x9B), Column(0xFE, 0x83, 0xF4, 0x77)));
  }

  lemma Whole3()
    ensures Walked(KEYS, PLAIN3) == CIPHER3
  {
    hide Walk, Walked, Sbox;
    KeysNamed();
    Third3();
    SboxValues0(); SboxValues1(); SboxValues2(); SboxValues3();
    var s := Quad(Column(0x1A, 0x01, 0x01, 0x98), Column(0x29, 0x98, 0x73, 0xA6), Column(0xBB, 0x25, 0x2A, 0x9B), Column(0xFE, 0x83, 0xF4, 0x77));
    s := Step(KEYS, PLAIN3, 12, KEY12, s, Quad(Column(0xA2, 0x54, 0x91, 0xB9), Column(0xE8, 0x57, 0xB2, 0xC8), Column(0xE8, 0x84, 0x5A, 0x6B), Column(0xBE, 0x43, 0xE4, 0x82)));
    s := Step(KEYS, PLAIN3, 13, KEY13, s, Quad(Column(0xA7, 0xCA, 0x72, 0xDB), Column(0x20, 0x80, 0x66, 0x20), Column(0xB0, 0x4D, 0x42, 0xCD), Column(0x01, 0x99, 0xB5, 0x04)));
    Finish(KEYS, PLAIN3, KEY14, s, CIPHER3);
  }

  lemma First4()
    ensures Walk(KEYS, PLAIN4, 4) == Quad(Column(0xFE, 0x33, 0xBA, 0xD2), Column(0x46, 0xDE, 0x1E, 0xFC), Column(0x95, 0x9F, 0x81, 0xED), Column(0xC0, 0x7A, 0x5C, 0x5F))
  {
    hide Walk, Walked, Sbox;
    KeysNamed();
    SboxValues0(); SboxValues1(); SboxValues2(); SboxValues3();
    var s := Quad(Column(0x83, 0x50, 0x0F, 0x6C), Column(0x02, 0x00, 0x00, 0x00), Column(0x00, 0x00, 0x00, 0x00), Column(0x00, 0x00, 0x00, 0x00));
    Begin(KEYS, PLAIN4, KEY0, s);
    s := Step(KEYS, PLAIN4, 1, KEY1, s, Quad(Column(0x66, 0xEC, 0xEC, 0xE9), Column(0x78, 0x44, 0x22, 0x39), Column(0x76, 0x5C, 0x49, 0x76), Column(0x33, 0x03, 0x53, 0x53)));
    s := Step(KEYS, PLAIN4, 2, KEY2, s, Quad(Column(0xC5, 0x6E, 0x90, 0xD7), Column(0x16, 0xD1, 0xF7, 0x27), Column(0x79, 0x5E, 0x10, 0xBA), Column(0x27, 0x19, 0x9A, 0x10)));
    s := Step(KEYS, PLAIN4, 3, KEY3, s, Quad(Column(0x7F, 0x4A, 0xCA, 0x71), Column(0xBA, 0x35, 0xFE, 0xCE), Column(0xD6, 0x76, 0x75, 0x0D), Column(0xCF, 0xBA, 0x1C, 0xB0)));
    s := Step(KEYS, PLAIN4, 4, KEY4, s, Quad(Column(0xFE, 0x33, 0xBA, 0xD2), Column(0x46, 0xDE, 0x1E, 0xFC), Column(0x95, 0x9F, 0x81, 0xED), Column(0xC0, 0x7A, 0x5C, 0x5F)));
  }

  lemma Second4()
    ensures Walk(KEYS, PLAIN4, 8) == Quad(Column(0xAD, 0x57, 0x54, 0x10), Column(0x74, 0x61, 0x75, 0x3E), Column(0x5A, 0xBA, 0x4E, 0x40), Column(0x38, 0xCD, 0x0C, 0xC8))
  {
    hide Walk, Walked, Sbox;
    KeysNamed();
    First4();
    SboxValues0(); SboxValues1(); SboxValues2(); SboxValues3();
    var s := Quad(Column(0xFE, 0x33, 0xBA, 0xD2), Column(0x46, 0xDE, 0x1E, 0xFC), Column(0x95, 0x9F, 0x81, 0xED), Column(0xC0, 0x7A, 0x5C, 0x5F));
    s := Step(KEYS, PLAIN4, 5, KEY5, s, Quad(Column(0xC6, 0x1F, 0x1A, 0xCE), Column(0x18, 0xC6, 0xA7, 0x79), Column(0x2A, 0x77, 0x26, 0xA7), Column(0x33, 0xBE, 0x14, 0xB9)));
    s := Step(KEYS, PLAIN4, 6, KEY6, s, Quad(Column(0x35, 0x26, 0x17, 0x76), Column(0xD6, 0x31, 0x26, 0xB2), Column(0x54, 0x97, 0x2F, 0x72), Column(0x7C, 0xD8, 0xAA, 0x45)));
    s := Step(KEYS, PLAIN4, 7, KEY7, s, Quad(Column(0xA5, 0x10, 0xC1, 0x56), Column(0x7E, 0x32, 0x0B, 0xDB), Column(0xF5, 0x83, 0x73, 0x9D), Column(0x61, 0xA0, 0x34, 0xC5)));
    s := Step(KEYS, PLAIN4, 8, KEY8, s, Quad(Column(0xAD, 0x57, 0x54, 0x10), Column(0x74, 0x61, 0x75, 0x3E), Column(0x5A, 0xBA, 0x4E, 0x40), Column(0x38, 0xCD, 0x0C, 0xC8)));
  }

  lemma Third4()
    ensures Walk(KEYS, PLAIN4, 11) == Quad(Column(0x4E, 0x08, 0xBF, 0x0A), Column(0x60, 0xF7, 0xFE, 0x6A), Column(0x53, 0x53, 0x29, 0x73), Column(0xAB, 0x77, 0xF5, 0xD4))
  {
    hide Walk, Walked, Sbox;
    KeysNamed();
    Second4();
    SboxValues0(); SboxValues1(); SboxValues2(); SboxValues3();
    var s := Quad(Column(0xAD, 0x57, 0x54, 0x10), Column(0x74, 0x61, 0x75, 0x3E), Column(0x5A, 0xBA, 0x4E, 0x40), Column(0x38, 0xCD, 0x0C, 0xC8));
    s := Step(KEYS, PLAIN4, 9, KEY9, s, Quad(Column(0xDA, 0x92, 0x51, 0x5E), Column(0x94, 0xF1, 0xEC, 0x57), Column(0x60, 0x13, 0x36, 0x46), Column(0xCA, 0x1D, 0x38, 0xD5)));
    s := Step(KEYS, PLAIN4, 10, KEY10, s, Quad(Column(0x79, 0x61, 0x4C, 0xC0), Column(0xBA, 0x22, 0x9E, 0x8A), Column(0x97, 0xAD, 0x6F, 0x0E), Column(0x31, 0x6A, 0x80, 0xB0)));
    s := Step(KEYS, PLAIN4, 11, KEY11, s, Quad(Column(0x4E, 0x08, 0xBF, 0x0A), Column(0x60, 0xF7, 0xFE, 0x6A), Column(0x53, 0x53, 0x29, 0x73), Column(0xAB, 0x77, 0xF5, 0xD4)));
  }

  lemma Whole4()
    ensures Walked(KEYS, PLAIN4) == CIPHER4
  {
    hide Walk, Walked, Sbox;
    KeysNamed();
    Third4();
    SboxValues0(); SboxValues1(); SboxValues2(); SboxValues3();
    var s := Quad(Column(0x4E, 0x08, 0xBF, 0x0A), Column(0x60, 0xF7, 0xFE, 0x6A), Column(0x53, 0x53, 0x29, 0x73), Column(0xAB, 0x77, 0xF5, 0xD4));
    s := Step(KEYS, PLAIN4, 12, KEY12, s, Quad(Column(0x2C, 0xF8, 0x6E, 0x3A), Column(0x17, 0x57, 0xC4, 0x9E), Column(0x9F, 0x0B, 0xC6, 0x43), Column(0x6C, 0xC5, 0xAF, 0xA7)));
    s := Step(KEYS, PLAIN4, 13, KEY13, s, Quad(Column(0x74, 0xD0, 0xFC, 0x92), Column(0xAC, 0xE5, 0x38, 0x4E), Column(0x12, 0xAF, 0xBC, 0x72), Column(0x0B, 0xBD, 0xD3, 0x9D)));
    Finish(KEYS, PLAIN4, KEY14, s, CIPHER4);
  }

  lemma First5()
    ensures Walk(KEYS, PLAIN5, 4) == Quad(Column(0x10, 0xC7, 0x56, 0xE8), Column(0xBD, 0x84, 0x34, 0xE1), Column(0x49, 0xFD, 0x6C, 0x8B), Column(0x55, 0x77, 0xFD, 0x5D))
  {
    hide Walk, Walked, Sbox;
    KeysNamed();
    SboxValues0(); SboxValues1(); SboxValues2(); SboxValues3();
    var s := Quad(Column(0xE7, 0x0F, 0x3A, 0xED), Column(0xDE, 0x6A, 0x87, 0x27), Column(0x6D, 0x6D, 0x7B, 0xFC), Column(0xD7, 0x64, 0x2F, 0x08));
    Begin(KEYS, PLAIN5, KEY0, s);
    s := Step(KEYS, PLAIN5, 1, KEY1, s, Quad(Column(0x24, 0xC3, 0x84, 0xE4), Column(0x3E, 0x0F, 0xF4, 0xA4), Column(0xF1, 0xED, 0x2B, 0x04), Column(0x21, 0x6B, 0x9D, 0x08)));
    s := Step(KEYS, PLAIN5, 2, KEY2, s, Quad(Column(0x6F, 0x29, 0x0B, 0xDE), Column(0xEF, 0x58, 0x02, 0x77), Column(0x96, 0x3C, 0x59, 0x29), Column(0x86, 0x42, 0x59, 0x11)));
    s := Step(KEYS, PLAIN5, 3, KEY3, s, Quad(Column(0xD6, 0xA7, 0x4A, 0xA6), Column(0x3F, 0x56, 0x06, 0x9B), Column(0xFB, 0x5F, 0x76, 0xA6), Column(0xC4, 0x36, 0x63, 0xB4)));
    s := Step(KEYS, PLAIN5, 4, KEY4, s, Quad(Column(0x10, 0xC7, 0x56, 0xE8), Column(0xBD, 0x84, 0x34, 0xE1), Column(0x49, 0xFD, 0x6C, 0x8B), Column(0x55, 0x77, 0xFD, 0x5D)));
  }

  lemma Second5()
    ensures Walk(KEYS, PLAIN5, 8) == Quad(Column(0xFA, 0x67, 0xB8, 0xE4), Column(0x3E, 0x64, 0x7D, 0x7B), Column(0xB0, 0x8C, 0x81, 0xB8), Column(0x1F, 0x0C, 0x01, 0x92))
  {
    hide Walk, Walked, Sbox;
    KeysNamed();
    First5();
    SboxValues0(); SboxValues1(); SboxValues2(); SboxValues3();
    var s := Quad(Column(0x10, 0xC7, 0x56, 0xE8), Column(0xBD, 0x84, 0x34, 0xE1), Column(0x49, 0xFD, 0x6C, 0x8B), Column(0x55, 0x77, 0xFD, 0x5D));
    s := Step(KEYS, PLAIN5, 5, KEY5, s, Quad(Column(0x3D, 0x8D, 0x0F, 0x5E), Column(0xE2, 0xEF, 0x46, 0xD4), Column(0x74, 0xBF, 0x4A, 0x6E), Column(0xB2, 0x24, 0x3B, 0xCC)));
    s := Step(KEYS, PLAIN5, 6, KEY6, s, Quad(Column(0x89, 0x1D, 0x8A, 0xA8), Column(0x6B, 0x1E, 0xB0, 0xB5), Column(0x23, 0x52, 0x6A, 0x40), Column(0xF6, 0xC4, 0x91, 0x44)));
    s := Step(KEYS, PLAIN5, 7, KEY7, s, Quad(Column(0x61, 0x1C, 0xF4, 0x4D), Column(0x23, 0x3D, 0x45, 0x11), Column(0x12, 0x14, 0x32, 0xBB), Column(0x69, 0x2D, 0xCE, 0xE2)));
    s := Step(KEYS, PLAIN5, 8, KEY8, s, Quad(Column(0xFA, 0x67, 0xB8, 0xE4), Column(0x3E, 0x64, 0x7D, 0x7B), Column(0xB0, 0x8C, 0x81, 0xB8), Column(0x1F, 0x0C, 0x01, 0x92)));
  }

  lemma Third5()
    ensures Walk(KEYS, PLAIN5, 11) == Quad(Column(0x6F, 0x65, 0x10, 0x30), Column(0xA6, 0xB1, 0x8E, 0x30), Column(0x1D, 0xD7, 0x30, 0xFF), Column(0x6B, 0x69, 0xD5, 0x8A))
  {
    hide Walk, Walked, Sbox;
    KeysNamed();
    Second5();
    SboxValues0(); SboxValues1(); SboxValues2(); SboxValues3();
    var s := Quad(Column(0xFA, 0x67, 0xB8, 0xE4), Column(0x3E, 0x64, 0x7D, 0x7B), Column(0xB0, 0x8C, 0x81, 0xB8), Column(0x1F, 0x0C, 0x01, 0x92));
    s := Step(KEYS, PLAIN5, 9, KEY9, s, Quad(Column(0xDA, 0xAB, 0xF1, 0x57), Column(0x5E, 0xD4, 0xBD, 0x78), Column(0xC8, 0x8B, 0x1A, 0x9F), Column(0x21, 0xBE, 0x4A, 0xF1)));
    s := Step(KEYS, PLAIN5, 10, KEY10, s, Quad(Column(0x5C, 0xF8, 0x0D, 0xD1), Column(0x5C, 0xB3, 0x18, 0x93), Column(0x6E, 0xF6, 0x8F, 0xE9), Column(0x7A, 0xFF, 0xCF, 0xB0)));
    s := Step(KEYS, PLAIN5, 11, KEY11, s, Quad(Column(0x6F, 0x65, 0x10, 0x30), Column(0xA6, 0xB1, 0x8E, 0x30), Column(0x1D, 0xD7, 0x30, 0xFF), Column(0x6B, 0x69, 0xD5, 0x8A)));
  }

  lemma Whole5()
    ensures Walked(KEYS, PLAIN5) == CIPHER5
  {
    hide Walk, Walked, Sbox;
    KeysNamed();
    Third5();
    SboxValues0(); SboxValues1(); SboxValues2(); SboxValues3();
    var s := Quad(Column(0x6F, 0x65, 0x10, 0x30), Column(0xA6, 0xB1, 0x8E, 0x30), Column(0x1D, 0xD7, 0x30, 0xFF), Column(0x6B, 0x69, 0xD5, 0x8A));
    s := Step(KEYS, PLAIN5, 12, KEY12, s, Quad(Column(0x55, 0xEA, 0x4A, 0xC5), Column(0x5C, 0x29, 0xA7, 0x59), Column(0xDD, 0x01, 0x16, 0x5A), Column(0xEA, 0x46, 0x20, 0x76)));
    s := Step(KEYS, PLAIN5, 13, KEY13, s, Quad(Column(0xFB, 0xD0, 0xDE, 0xDB), Column(0xD2, 0x9E, 0x38, 0x4E), Column(0xB0, 0x4D, 0x93, 0x72), Column(0x0B, 0x99, 0xB5, 0x2A)));
    Finish(KEYS, PLAIN5, KEY14, s, CIPHER5);
  }
}
