/** The AES-256 cipher and inverse cipher on 16-byte states, and the key schedule (sections 5.1
    to 5.3 of FIPS 197), as functions. */
module BlockCipher {
  import opened Gf256
  import opened Substitution

  type State = s: seq<Byte> | |s| == 16 witness seq(16, i => 0)

  const ROUNDS: nat := 14

  function SubBytes(s: State): State { seq(16, i requires 0 <= i < 16 => Sbox(s[i])) }
  function InvSubBytes(s: State): State { seq(16, i requires 0 <= i < 16 => InvSbox(s[i])) }

  /** Where byte `i` comes from when row r moves `d` columns to the left. */
  function Turned(i: nat, d: nat): (j: nat)
    requires i < 16 && d <= 4
    ensures j < 16
  {
    4 * ((i / 4 + d) % 4) + i % 4
  }

  /** Row r of the state moves r columns to the left. */
  function ShiftRows(s: State): State {
    seq(16, i requires 0 <= i < 16 => s[Turned(i, i % 4)])
  }

  function InvShiftRows(s: State): State {
    seq(16, i requires 0 <= i < 16 => s[Turned(i, 4 - i % 4)])
  }

  function ColumnAt(s: State, c: nat): Column
    requires c < 4
  {
    Column(s[4 * c], s[4 * c + 1], s[4 * c + 2], s[4 * c + 3])
  }

  function ColumnByte(c: Column, r: nat): Byte {
    match r case 0 => c.s0 case 1 => c.s1 case 2 => c.s2 case _ => c.s3
  }

  function MixColumns(s: State): State {
    seq(16, i requires 0 <= i < 16 => ColumnByte(MixColumn(ColumnAt(s, i / 4)), i % 4))
  }

  function InvMixColumns(s: State): State {
    seq(16, i requires 0 <= i < 16 => ColumnByte(InvMixColumn(ColumnAt(s, i / 4)), i % 4))
  }

  function AddKey(s: State, k: State): State { seq(16, i requires 0 <= i < 16 => s[i] ^ k[i]) }

  type Schedule = k: seq<Byte> | |k| == 240 witness seq(240, i => 0)

  function RoundKey(k: Schedule, round: nat): State
    requires round <= ROUNDS
  {
    k[16 * round..16 * round + 16]
  }

  /** The state after the initial key and the first `n` full rounds. */
  function AfterRounds(k: Schedule, s: State, n: nat): State
    requires n < ROUNDS
  {
    if n == 0 then AddKey(s, RoundKey(k, 0))
    else AddKey(MixColumns(ShiftRows(SubBytes(AfterRounds(k, s, n - 1)))), RoundKey(k, n))
  }

  function Encrypt(k: Schedule, s: State): State {
    AddKey(ShiftRows(SubBytes(AfterRounds(k, s, ROUNDS - 1))), RoundKey(k, ROUNDS))
  }

  /** Inverse rounds `n` down to 1, then the final inverse round. */
  function Unwind(k: Schedule, s: State, n: nat): State
    requires n < ROUNDS
    decreases n
  {
    if n == 0 then AddKey(InvSubBytes(InvShiftRows(s)), RoundKey(k, 0))
    else Unwind(k, InvMixColumns(AddKey(InvSubBytes(InvShiftRows(s)), RoundKey(k, n))), n - 1)
  }

  function Decrypt(k: Schedule, s: State): State {
    Unwind(k, AddKey(s, RoundKey(k, ROUNDS)), ROUNDS - 1)
  }

  // ---- each layer is undone ---------------------------------------------------------------

  lemma SubUndone(s: State)
    ensures InvSubBytes(SubBytes(s)) == s && SubBytes(InvSubBytes(s)) == s
  {
    hide Sbox, InvSbox;
    forall i | 0 <= i < 16
      ensures InvSbox(Sbox(s[i])) == s[i] && Sbox(InvSbox(s[i])) == s[i]
    {
      SboxInverse(s[i]);
      InvSboxInverse(s[i]);
    }
  }

  lemma ShiftUndone(s: State)
    ensures InvShiftRows(ShiftRows(s)) == s && ShiftRows(InvShiftRows(s)) == s
  {
    hide Turned;
    forall i | 0 <= i < 16
      ensures InvShiftRows(ShiftRows(s))[i] == s[i] && ShiftRows(InvShiftRows(s))[i] == s[i]
    {
      TurnedBack(i, i % 4);
      TurnedBack(i, 4 - i % 4);
    }
  }

  lemma TurnedBack(i: nat, d: nat)
    requires i < 16 && d <= 4
    ensures Turned(i, d) % 4 == i % 4 && Turned(Turned(i, d), 4 - d) == i
  {
    var c, r := i / 4, i % 4;
    var e := if c + d < 4 then c + d else c + d - 4;
    SmallMod(c + d);
    assert Turned(i, d) == 4 * e + r;
    SmallMod(e + 4 - d);
  }

  lemma SmallMod(n: nat)
    requires n < 8
    ensures n % 4 == if n < 4 then n else n - 4
  {
  }

  /** A state is its four columns. */
  lemma SameColumns(s: State, t: State)
    requires forall c :: 0 <= c < 4 ==> ColumnAt(s, c) == ColumnAt(t, c)
    ensures s == t
  {
    forall i | 0 <= i < 16
      ensures s[i] == t[i]
    {
      var c := i / 4;
      assert ColumnAt(s, c) == ColumnAt(t, c);
    }
  }

  lemma MixedColumn(s: State, c: nat)
    requires c < 4
    ensures ColumnAt(MixColumns(s), c) == MixColumn(ColumnAt(s, c))
    ensures ColumnAt(InvMixColumns(s), c) == InvMixColumn(ColumnAt(s, c))
  {
    hide MixColumn, InvMixColumn;
    var t, u := MixColumns(s), InvMixColumns(s);
    assert (4 * c) / 4 == c && (4 * c + 1) / 4 == c && (4 * c + 2) / 4 == c && (4 * c + 3) / 4 == c;
    assert t[4 * c] == MixColumn(ColumnAt(s, c)).s0 && t[4 * c + 1] == MixColumn(ColumnAt(s, c)).s1;
    assert t[4 * c + 2] == MixColumn(ColumnAt(s, c)).s2 && t[4 * c + 3] == MixColumn(ColumnAt(s, c)).s3;
    assert u[4 * c] == InvMixColumn(ColumnAt(s, c)).s0 && u[4 * c + 1] == InvMixColumn(ColumnAt(s, c)).s1;
    assert u[4 * c + 2] == InvMixColumn(ColumnAt(s, c)).s2 && u[4 * c + 3] == InvMixColumn(ColumnAt(s, c)).s3;
  }

  lemma MixUndone(s: State)
    ensures InvMixColumns(MixColumns(s)) == s && MixColumns(InvMixColumns(s)) == s
  {
    hide MixColumn, InvMixColumn, MixColumns, InvMixColumns, ColumnAt;
    var t, u := InvMixColumns(MixColumns(s)), MixColumns(InvMixColumns(s));
    forall c | 0 <= c < 4
      ensures ColumnAt(t, c) == ColumnAt(s, c) && ColumnAt(u, c) == ColumnAt(s, c)
    {
      MixedColumn(s, c);
      MixedColumn(MixColumns(s), c);
      MixedColumn(InvMixColumns(s), c);
      MixInverse(ColumnAt(s, c));
    }
    SameColumns(t, s);
    SameColumns(u, s);
  }

  lemma XorTwice(a: Byte, b: Byte)
    ensures (a ^ b) ^ b == a
  {
  }

  lemma KeyUndone(s: State, k: State)
    ensures AddKey(AddKey(s, k), k) == s
  {
    forall i | 0 <= i < 16
      ensures AddKey(AddKey(s, k), k)[i] == s[i]
    {
      XorTwice(s[i], k[i]);
    }
  }

  // ---- the whole cipher is undone -----------------------------------------------------------

  lemma {:induction false} RoundsUndone(k: Schedule, s: State, n: nat)
    requires n < ROUNDS
    ensures Unwind(k, ShiftRows(SubBytes(AfterRounds(k, s, n))), n) == s
  {
    hide SubBytes, InvSubBytes, ShiftRows, InvShiftRows, MixColumns, InvMixColumns, AddKey, RoundKey;
    var t := AfterRounds(k, s, n);
    ShiftUndone(SubBytes(t));
    SubUndone(t);
    if n == 0 {
      KeyUndone(s, RoundKey(k, 0));
    } else {
      var u := ShiftRows(SubBytes(AfterRounds(k, s, n - 1)));
      KeyUndone(MixColumns(u), RoundKey(k, n));
      MixUndone(u);
      RoundsUndone(k, s, n - 1);
    }
  }

  lemma {:induction false} UnwindUndone(k: Schedule, t: State, n: nat)
    requires n < ROUNDS
    ensures AfterRounds(k, Unwind(k, t, n), n) == InvSubBytes(InvShiftRows(t))
    decreases n
  {
    hide SubBytes, InvSubBytes, ShiftRows, InvShiftRows, MixColumns, InvMixColumns, AddKey, RoundKey;
    var v := InvSubBytes(InvShiftRows(t));
    if n == 0 {
      KeyUndone(v, RoundKey(k, 0));
    } else {
      var u := InvMixColumns(AddKey(v, RoundKey(k, n)));
      UnwindUndone(k, u, n - 1);
      SubUndone(InvShiftRows(u));
      ShiftUndone(u);
      MixUndone(AddKey(v, RoundKey(k, n)));
      KeyUndone(v, RoundKey(k, n));
    }
  }

  /** Decryption undoes encryption, and encryption undoes decryption, for every key schedule
      and every block. */
  lemma CipherRoundTrip(k: Schedule, s: State)
    ensures Decrypt(k, Encrypt(k, s)) == s
    ensures Encrypt(k, Decrypt(k, s)) == s
  {
    hide SubBytes, InvSubBytes, ShiftRows, InvShiftRows, MixColumns, InvMixColumns, AddKey, RoundKey;
    var t := AfterRounds(k, s, ROUNDS - 1);
    KeyUndone(ShiftRows(SubBytes(t)), RoundKey(k, ROUNDS));
    RoundsUndone(k, s, ROUNDS - 1);
    var u := AddKey(s, RoundKey(k, ROUNDS));
    UnwindUndone(k, u, ROUNDS - 1);
    SubUndone(InvShiftRows(u));
    ShiftUndone(u);
    KeyUndone(s, RoundKey(k, ROUNDS));
  }

  // ---- key schedule -----------------------------------------------------------------------------

  datatype Word = Word(b0: Byte, b1: Byte, b2: Byte, b3: Byte)

  function XorWords(a: Word, b: Word): Word {
    Word(a.b0 ^ b.b0, a.b1 ^ b.b1, a.b2 ^ b.b2, a.b3 ^ b.b3)
  }

  function SubWord(w: Word): Word { Word(Sbox(w.b0), Sbox(w.b1), Sbox(w.b2), Sbox(w.b3)) }

  function RotWord(w: Word): Word { Word(w.b1, w.b2, w.b3, w.b0) }

  /** Powers of x in GF(2^8). */
  function Rcon(i: nat): Byte
    requires i >= 1
  {
    if i == 1 then 1 else GfMul2(Rcon(i - 1))
  }

  /** What the previous word goes through before it is added in at position `i`. */
  function Stirred(temp: Word, i: nat): Word
    requires i >= 8
  {
    if i % 8 == 0 then XorWords(SubWord(RotWord(temp)), Word(Rcon(i / 8), 0, 0, 0))
    else if i % 8 == 4 then SubWord(temp) else temp
  }

  /** Word `i` of the AES-256 key expansion (section 5.2 of FIPS 197, Nk = 8). */
  function KeyWord(key: seq<Byte>, i: nat): Word
    requires |key| == 32 && i < 60
  {
    if i < 8 then Word(key[4 * i], key[4 * i + 1], key[4 * i + 2], key[4 * i + 3])
    else
      XorWords(KeyWord(key, i - 8), Stirred(KeyWord(key, i - 1), i))
  }

  function WordByte(w: Word, r: nat): Byte {
    match r case 0 => w.b0 case 1 => w.b1 case 2 => w.b2 case _ => w.b3
  }

  function ExpandKey(key: seq<Byte>): Schedule
    requires |key| == 32
  {
    seq(240, i requires 0 <= i < 240 => WordByte(KeyWord(key, i / 4), i % 4))
  }
}
