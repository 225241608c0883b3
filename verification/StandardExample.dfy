/** The AES-256 example of appendix C.3 of FIPS 197, taken through all rounds. */
module StandardExample {
  import opened Gf256
  import opened Substitution
  import opened BlockCipher
  import opened ColumnRounds

  const KEY: seq<Byte> := [0x00, 0x01, 0x02, 0x03, 0x04, 0x05, 0x06, 0x07, 0x08, 0x09, 0x0A, 0x0B, 0x0C, 0x0D, 0x0E, 0x0F,
                           0x10, 0x11, 0x12, 0x13, 0x14, 0x15, 0x16, 0x17, 0x18, 0x19, 0x1A, 0x1B, 0x1C, 0x1D, 0x1E, 0x1F]

  const PLAIN: State := [0x00, 0x11, 0x22, 0x33, 0x44, 0x55, 0x66, 0x77, 0x88, 0x99, 0xAA, 0xBB, 0xCC, 0xDD, 0xEE, 0xFF]

  const CIPHER: State := [0x8E, 0xA2, 0xB7, 0xCA, 0x51, 0x67, 0x45, 0xBF, 0xEA, 0xFC, 0x49, 0x90, 0x4B, 0x49, 0x60, 0x89]

  // The round keys, by columns.
  const KEY0: Quad := Quad(Column(0x00, 0x01, 0x02, 0x03), Column(0x04, 0x05, 0x06, 0x07), Column(0x08, 0x09, 0x0A, 0x0B), Column(0x0C, 0x0D, 0x0E, 0x0F))
  const KEY1: Quad := Quad(Column(0x10, 0x11, 0x12, 0x13), Column(0x14, 0x15, 0x16, 0x17), Column(0x18, 0x19, 0x1A, 0x1B), Column(0x1C, 0x1D, 0x1E, 0x1F))
  const KEY2: Quad := Quad(Column(0xA5, 0x73, 0xC2, 0x9F), Column(0xA1, 0x76, 0xC4, 0x98), Column(0xA9, 0x7F, 0xCE, 0x93), Column(0xA5, 0x72, 0xC0, 0x9C))
  const KEY3: Quad := Quad(Column(0x16, 0x51, 0xA8, 0xCD), Column(0x02, 0x44, 0xBE, 0xDA), Column(0x1A, 0x5D, 0xA4, 0xC1), Column(0x06, 0x40, 0xBA, 0xDE))
  const KEY4: Quad := Quad(Column(0xAE, 0x87, 0xDF, 0xF0), Column(0x0F, 0xF1, 0x1B, 0x68), Column(0xA6, 0x8E, 0xD5, 0xFB), Column(0x03, 0xFC, 0x15, 0x67))
  const KEY5: Quad := Quad(Column(0x6D, 0xE1, 0xF1, 0x48), Column(0x6F, 0xA5, 0x4F, 0x92), Column(0x75, 0xF8, 0xEB, 0x53), Column(0x73, 0xB8, 0x51, 0x8D))
  const KEY6: Quad := Quad(Column(0xC6, 0x56, 0x82, 0x7F), Column(0xC9, 0xA7, 0x99, 0x17), Column(0x6F, 0x29, 0x4C, 0xEC), Column(0x6C, 0xD5, 0x59, 0x8B))
  const KEY7: Quad := Quad(Column(0x3D, 0xE2, 0x3A, 0x75), Column(0x52, 0x47, 0x75, 0xE7), Column(0x27, 0xBF, 0x9E, 0xB4), Column(0x54, 0x07, 0xCF, 0x39))
  const KEY8: Quad := Quad(Column(0x0B, 0xDC, 0x90, 0x5F), Column(0xC2, 0x7B, 0x09, 0x48), Column(0xAD, 0x52, 0x45, 0xA4), Column(0xC1, 0x87, 0x1C, 0x2F))
  const KEY9: Quad := Quad(Column(0x45, 0xF5, 0xA6, 0x60), Column(0x17, 0xB2, 0xD3, 0x87), Column(0x30, 0x0D, 0x4D, 0x33), Column(0x64, 0x0A, 0x82, 0x0A))
  const KEY10: Quad := Quad(Column(0x7C, 0xCF, 0xF7, 0x1C), Column(0xBE, 0xB4, 0xFE, 0x54), Column(0x13, 0xE6, 0xBB, 0xF0), Column(0xD2, 0x61, 0xA7, 0xDF))
  const KEY11: Quad := Quad(Column(0xF0, 0x1A, 0xFA, 0xFE), Column(0xE7, 0xA8, 0x29, 0x79), Column(0xD7, 0xA5, 0x64, 0x4A), Column(0xB3, 0xAF, 0xE6, 0x40))
  const KEY12: Quad := Quad(Column(0x25, 0x41, 0xFE, 0x71), Column(0x9B, 0xF5, 0x00, 0x25), Column(0x88, 0x13, 0xBB, 0xD5), Column(0x5A, 0x72, 0x1C, 0x0A))
  const KEY13: Quad := Quad(Column(0x4E, 0x5A, 0x66, 0x99), Column(0xA9, 0xF2, 0x4F, 0xE0), Column(0x7E, 0x57, 0x2B, 0xAA), Column(0xCD, 0xF8, 0xCD, 0xEA))
  const KEY14: Quad := Quad(Column(0x24, 0xFC, 0x79, 0xCC), Column(0xBF, 0x09, 0x79, 0xE9), Column(0x37, 0x1A, 0xC2, 0x3C), Column(0x6D, 0x68, 0xDE, 0x36))

  const KEYS: seq<Quad> := [KEY0, KEY1, KEY2, KEY3, KEY4, KEY5, KEY6, KEY7, KEY8, KEY9, KEY10, KEY11, KEY12, KEY13, KEY14]

  lemma KeysFrom2()
    ensures NextKey(KEY0, KEY1, 2) == KEY2
    ensures NextKey(KEY1, KEY2, 3) == KEY3
    ensures NextKey(KEY2, KEY3, 4) == KEY4
  {
    hide Sbox, Rcon;
    RconValues();
    SboxValues0(); SboxValues1(); SboxValues2(); SboxValues3();
  }

  lemma KeysFrom5()
    ensures NextKey(KEY3, KEY4, 5) == KEY5
    ensures NextKey(KEY4, KEY5, 6) == KEY6
    ensures NextKey(KEY5, KEY6, 7) == KEY7
  {
    hide Sbox, Rcon;
    RconValues();
    SboxValues0(); SboxValues1(); SboxValues2(); SboxValues3();
  }

  lemma KeysFrom8()
    ensures NextKey(KEY6, KEY7, 8) == KEY8
    ensures NextKey(KEY7, KEY8, 9) == KEY9
    ensures NextKey(KEY8, KEY9, 10) == KEY10
  {
    hide Sbox, Rcon;
    RconValues();
    SboxValues0(); SboxValues1(); SboxValues2(); SboxValues3();
  }

  lemma KeysFrom11()
    ensures NextKey(KEY9, KEY10, 11) == KEY11
    ensures NextKey(KEY10, KEY11, 12) == KEY12
    ensures NextKey(KEY11, KEY12, 13) == KEY13
    ensures NextKey(KEY12, KEY13, 14) == KEY14
  {
    hide Sbox, Rcon;
    RconValues();
    SboxValues0(); SboxValues1(); SboxValues2(); SboxValues3();
  }

  lemma FirstWords()
    ensures Words(KEY, 0) == KEY0 && Words(KEY, 1) == KEY1
  {
    hide KeyWord, Col, Words;
    FirstWord(KEY, 0); FirstWord(KEY, 1); FirstWord(KEY, 2); FirstWord(KEY, 3);
    FirstWord(KEY, 4); FirstWord(KEY, 5); FirstWord(KEY, 6); FirstWord(KEY, 7);
    WordsOf(KEY, 0);
    WordsOf(KEY, 1);
  }

  lemma KeysNamed()
    ensures |KEYS| == ROUNDS + 1
    ensures KEYS[0] == KEY0 && KEYS[1] == KEY1 && KEYS[2] == KEY2 && KEYS[3] == KEY3 && KEYS[4] == KEY4
    ensures KEYS[5] == KEY5 && KEYS[6] == KEY6 && KEYS[7] == KEY7 && KEYS[8] == KEY8 && KEYS[9] == KEY9
    ensures KEYS[10] == KEY10 && KEYS[11] == KEY11 && KEYS[12] == KEY12 && KEYS[13] == KEY13 && KEYS[14] == KEY14
  {
  }

  lemma KeysAreScheduled()
    ensures Scheduled(KEY, KEYS)
  {
    hide NextKey, Words;
    KeysNamed();
    FirstWords();
    KeysFrom2();
    KeysFrom5();
    KeysFrom8();
    KeysFrom11();
    forall n: nat | 2 <= n <= ROUNDS
      ensures Follows(KEYS, n)
    {
      assert n == 2 || n == 3 || n == 4 || n == 5 || n == 6 || n == 7 || n == 8 || n == 9 || n == 10 || n == 11 || n == 12 || n == 13 || n == 14;
    }
  }

  // The blocks and their ciphertexts, by columns.
  const PLAIN0: Quad := Quad(Column(0x00, 0x11, 0x22, 0x33), Column(0x44, 0x55, 0x66, 0x77), Column(0x88, 0x99, 0xAA, 0xBB), Column(0xCC, 0xDD, 0xEE, 0xFF))
  const CIPHER0: Quad := Quad(Column(0x8E, 0xA2, 0xB7, 0xCA), Column(0x51, 0x67, 0x45, 0xBF), Column(0xEA, 0xFC, 0x49, 0x90), Column(0x4B, 0x49, 0x60, 0x89))

  lemma First0()
    ensures Walk(KEYS, PLAIN0, 4) == Quad(Column(0x1C, 0x05, 0xF2, 0x71), Column(0xA4, 0x17, 0xE0, 0x4F), Column(0xF9, 0x21, 0xC5, 0xC1), Column(0x04, 0x70, 0x15, 0x54))
  {
    hide Walk, Walked, Sbox;
    KeysNamed();
    SboxValues0(); SboxValues1(); SboxValues2(); SboxValues3();
    var s := Quad(Column(0x00, 0x10, 0x20, 0x30), Column(0x40, 0x50, 0x60, 0x70), Column(0x80, 0x90, 0xA0, 0xB0), Column(0xC0, 0xD0, 0xE0, 0xF0));
    Begin(KEYS, PLAIN0, KEY0, s);
    s := Step(KEYS, PLAIN0, 1, KEY1, s, Quad(Column(0x4F, 0x63, 0x76, 0x06), Column(0x43, 0xE0, 0xAA, 0x85), Column(0xEF, 0xA7, 0x21, 0x32), Column(0x01, 0xA4, 0xE7, 0x05)));
    s := Step(KEYS, PLAIN0, 2, KEY2, s, Quad(Column(0x18, 0x59, 0xFB, 0xC2), Column(0x8A, 0x1C, 0x00, 0xA0), Column(0x78, 0xED, 0x8A, 0xAD), Column(0xC4, 0x2F, 0x61, 0x09)));
    s := Step(KEYS, PLAIN0, 3, KEY3, s, Quad(Column(0x97, 0x5C, 0x66, 0xC1), Column(0xCB, 0x9F, 0x3F, 0xA8), Column(0xA9, 0x3A, 0x28, 0xDF), Column(0x8E, 0xE1, 0x0F, 0x63)));
    s := Step(KEYS, PLAIN0, 4, KEY4, s, Quad(Column(0x1C, 0x05, 0xF2, 0x71), Column(0xA4, 0x17, 0xE0, 0x4F), Column(0xF9, 0x21, 0xC5, 0xC1), Column(0x04, 0x70, 0x15, 0x54)));
  }

  lemma Second0()
    ensures Walk(KEYS, PLAIN0, 8) == Quad(Column(0x5A, 0xA8, 0x58, 0x39), Column(0x5F, 0xD2, 0x8D, 0x7D), Column(0x05, 0xE1, 0xA3, 0x88), Column(0x68, 0xF3, 0xB9, 0xC5))
  {
    hide Walk, Walked, Sbox;
    KeysNamed();
    First0();
    SboxValues0(); SboxValues1(); SboxValues2(); SboxValues3();
    var s := Quad(Column(0x1C, 0x05, 0xF2, 0x71), Column(0xA4, 0x17, 0xE0, 0x4F), Column(0xF9, 0x21, 0xC5, 0xC1), Column(0x04, 0x70, 0x15, 0x54));
    s := Step(KEYS, PLAIN0, 5, KEY5, s, Quad(Column(0xC3, 0x57, 0xAA, 0xE1), Column(0x1B, 0x45, 0xB7, 0xB0), Column(0xA2, 0xC7, 0xBD, 0x28), Column(0xA8, 0xDC, 0x99, 0xFA)));
    s := Step(KEYS, PLAIN0, 6, KEY6, s, Quad(Column(0x7F, 0x07, 0x41, 0x43), Column(0xCB, 0x4E, 0x24, 0x3E), Column(0xC1, 0x0C, 0x81, 0x5D), Column(0x83, 0x75, 0xD5, 0x4C)));
    s := Step(KEYS, PLAIN0, 7, KEY7, s, Quad(Column(0xD6, 0x53, 0xA4, 0x69), Column(0x6C, 0xA0, 0xBC, 0x0F), Column(0x5A, 0xCA, 0xAB, 0x5D), Column(0xB9, 0x6C, 0x5E, 0x7D)));
    s := Step(KEYS, PLAIN0, 8, KEY8, s, Quad(Column(0x5A, 0xA8, 0x58, 0x39), Column(0x5F, 0xD2, 0x8D, 0x7D), Column(0x05, 0xE1, 0xA3, 0x88), Column(0x68, 0xF3, 0xB9, 0xC5)));
  }

  lemma Third0()
    ensures Walk(KEYS, PLAIN0, 11) == Quad(Column(0x5F, 0x9C, 0x6A, 0xBF), Column(0xBA, 0xC6, 0x34, 0xAA), Column(0x50, 0x40, 0x9F, 0xA7), Column(0x66, 0x67, 0x76, 0x53))
  {
    hide Walk, Walked, Sbox;
    KeysNamed();
    Second0();
    SboxValues0(); SboxValues1(); SboxValues2(); SboxValues3();
    var s := Quad(Column(0x5A, 0xA8, 0x58, 0x39), Column(0x5F, 0xD2, 0x8D, 0x7D), Column(0x05, 0xE1, 0xA3, 0x88), Column(0x68, 0xF3, 0xB9, 0xC5));
    s := Step(KEYS, PLAIN0, 9, KEY9, s, Quad(Column(0x4A, 0x82, 0x48, 0x51), Column(0xC5, 0x7E, 0x7E, 0x47), Column(0x64, 0x3D, 0xE5, 0x0C), Column(0x2A, 0xF3, 0xE8, 0xC9)));
    s := Step(KEYS, PLAIN0, 10, KEY10, s, Quad(Column(0xC1, 0x49, 0x07, 0xF6), Column(0xCA, 0x3B, 0x3A, 0xA0), Column(0x70, 0xE9, 0xAA, 0x31), Column(0x3B, 0x52, 0xB5, 0xEC)));
    s := Step(KEYS, PLAIN0, 11, KEY11, s, Quad(Column(0x5F, 0x9C, 0x6A, 0xBF), Column(0xBA, 0xC6, 0x34, 0xAA), Column(0x50, 0x40, 0x9F, 0xA7), Column(0x66, 0x67, 0x76, 0x53)));
  }

  lemma Whole0()
    ensures Walked(KEYS, PLAIN0) == CIPHER0
  {
    hide Walk, Walked, Sbox;
    KeysNamed();
    Third0();
    SboxValues0(); SboxValues1(); SboxValues2(); SboxValues3();
    var s := Quad(Column(0x5F, 0x9C, 0x6A, 0xBF), Column(0xBA, 0xC6, 0x34, 0xAA), Column(0x50, 0x40, 0x9F, 0xA7), Column(0x66, 0x67, 0x76, 0x53));
    s := Step(KEYS, PLAIN0, 12, KEY12, s, Quad(Column(0x51, 0x66, 0x04, 0x95), Column(0x43, 0x53, 0x95, 0x03), Column(0x14, 0xFB, 0x86, 0xE4), Column(0x01, 0x92, 0x25, 0x21)));
    s := Step(KEYS, PLAIN0, 13, KEY13, s, Quad(Column(0x62, 0x7B, 0xCE, 0xB9), Column(0x99, 0x9D, 0x5A, 0xAA), Column(0xC9, 0x45, 0xEC, 0xF4), Column(0x23, 0xF5, 0x6D, 0xA5)));
    Finish(KEYS, PLAIN0, KEY14, s, CIPHER0);
  }

  /** The example of the standard: the key 00 01 .. 1F takes 00 11 .. FF to the ciphertext printed there, and
      back. */
  lemma StandardVector()
    ensures Encrypt(ExpandKey(KEY), PLAIN) == CIPHER && Decrypt(ExpandKey(KEY), CIPHER) == PLAIN
  {
    hide Encrypt, Decrypt, ExpandKey, Walked;
    KeysAreScheduled();
    WalkedIs(KEY, KEYS, PLAIN0);
    Whole0();
    assert Of(PLAIN0) == PLAIN && Of(CIPHER0) == CIPHER;
    CipherRoundTrip(ExpandKey(KEY), PLAIN);
  }
}
