/** Buffers with a partial last block do not all come back: under one key, for every tweak and every such
    length there is a buffer whose decryption is not what was encrypted. */
module XtsPartial {
  import opened Gf256
  import opened BlockCipher
  import opened XtsMode
  import opened ColumnRounds
  import opened KnownBlocks

  const ZERO: State := Zeros(16)

  /** The first `rem` bytes of one block and the others of another. */
  function Fronted(a: State, rem: nat, b: State): State
    requires rem < 16
  {
    a[..rem] + b[rem..]
  }

  /** The last whole block of a buffer of `full` blocks and a part. */
  function Last(data: seq<Byte>, full: nat): State
    requires full > 0 && |data| >= 16 * full
  {
    data[16 * full - 16..16 * full]
  }

  // ---- the last whole block of a processed buffer ----------------------------------------------------

  lemma PaddedPart(c: State, tweak: State, rem: nat)
    requires rem < 16
    ensures AddPart(AddKey(c, tweak)[..rem] + seq(16 - rem, i => 0), tweak, rem) == Fronted(c, rem, ZERO)
  {
    forall i | 0 <= i < 16
      ensures (c[i] ^ tweak[i]) ^ tweak[i] == c[i]
    {
      XorTwice(c[i], tweak[i]);
    }
  }

  lemma PartFront(b: State, tweak: State, rem: nat)
    requires rem < 16
    ensures AddPart(b, tweak, rem)[..rem] == AddKey(b, tweak)[..rem]
  {
  }

  lemma StolenIs(d: Direction, k: Schedule, tweak: State, c: State, rem: nat)
    requires rem < 16
    ensures Stolen(d, k, tweak, AddKey(c, tweak)[..rem]) == AddKey(Cipher(d, k, Fronted(c, rem, ZERO)), tweak)[..rem]
  {
    hide Cipher, AddPart, AddKey, Fronted;
    PaddedPart(c, tweak, rem);
    PartFront(Cipher(d, k, Fronted(c, rem, ZERO)), tweak, rem);
  }

  lemma SplicedLast(data: seq<Byte>, full: nat, rem: nat, a: State)
    requires full > 0 && rem < 16 && |data| == 16 * full + rem
    ensures Last(Splice(data, 16 * full - 16, a[..rem]), full) == Fronted(a, rem, Last(data, full))
  {
  }

  lemma LastIsBlock(data: seq<Byte>, full: nat)
    requires full > 0 && |data| >= 16 * full
    ensures 16 * (full - 1) + 16 <= |data| && Last(data, full) == BlockAt(data, full - 1)
  {
  }

  lemma DoneLast(d: Direction, k: Schedule, t: State, data: seq<Byte>, full: nat)
    requires full > 0 && |data| >= 16 * full
    ensures var tweak := TweakAt(t, full - 1);
            Last(BlocksDone(d, k, t, data, full), full) == AddKey(Cipher(d, k, AddKey(Last(data, full), tweak)), tweak)
  {
    hide BlocksDone, Cipher, AddKey, TweakAt, Last, BlockAt;
    LastIsBlock(data, full);
    LastIsBlock(BlocksDone(d, k, t, data, full), full);
    BlocksDoneAt(d, k, t, data, full, full - 1);
  }

  lemma Quotient(full: nat, rem: nat)
    requires rem < 16
    ensures (16 * full + rem) / 16 == full && (16 * full + rem) % 16 == rem
  {
  }

  lemma ProcessIs(d: Direction, k: Schedule, t: State, data: seq<Byte>, full: nat, rem: nat)
    requires full > 0 && 0 < rem < 16 && |data| == 16 * full + rem
    ensures var done := BlocksDone(d, k, t, data, full);
            Process(d, k, t, data) == Splice(done, 16 * full - 16, Stolen(d, k, TweakAt(t, full - 1), Last(done, full)[..rem]))
  {
    hide Stolen, BlocksDone, Splice, TweakAt;
    Quotient(full, rem);
    var done := BlocksDone(d, k, t, data, full);
    assert done[16 * full - 16..16 * full - 16 + rem] == Last(done, full)[..rem];
  }

  lemma AddFronted(a: State, rem: nat, b: State, tweak: State)
    requires rem < 16
    ensures AddKey(Fronted(AddKey(a, tweak), rem, AddKey(b, tweak)), tweak) == Fronted(a, rem, b)
  {
    forall i | 0 <= i < 16
      ensures (a[i] ^ tweak[i]) ^ tweak[i] == a[i] && (b[i] ^ tweak[i]) ^ tweak[i] == b[i]
    {
      XorTwice(a[i], tweak[i]);
      XorTwice(b[i], tweak[i]);
    }
  }

  /** The last whole block of a processed buffer, the tweak taken off on both sides: its first bytes are
      enciphered once more, padded with zeros. */
  lemma LastBlock(d: Direction, k: Schedule, t: State, data: seq<Byte>, full: nat, rem: nat)
    requires full > 0 && 0 < rem < 16 && |data| == 16 * full + rem
    ensures var tweak := TweakAt(t, full - 1);
            var c := Cipher(d, k, AddKey(Last(data, full), tweak));
            AddKey(Last(Process(d, k, t, data), full), tweak) == Fronted(Cipher(d, k, Fronted(c, rem, ZERO)), rem, c)
  {
    hide Process, BlocksDone, Cipher, Stolen, Splice, Fronted, AddKey, TweakAt, Last;
    var tweak := TweakAt(t, full - 1);
    var c := Cipher(d, k, AddKey(Last(data, full), tweak));
    var done := BlocksDone(d, k, t, data, full);
    ProcessIs(d, k, t, data, full, rem);
    DoneLast(d, k, t, data, full);
    StolenIs(d, k, tweak, c, rem);
    SplicedLast(done, full, rem, AddKey(Cipher(d, k, Fronted(c, rem, ZERO)), tweak));
    AddFronted(Cipher(d, k, Fronted(c, rem, ZERO)), rem, c, tweak);
  }

  // ---- a buffer that does not come back -----------------------------------------------------------------

  /** The block of a few bytes and zeros that serves for `rem` left-over bytes, and the block whose
      ciphertext has its first `rem` bytes and then those of its ciphertext. */
  function Head(rem: nat): Quad {
    if rem <= 5 then PLAIN0 else if rem <= 10 then PLAIN2 else PLAIN4
  }

  function Chosen(rem: nat): Quad {
    if rem <= 5 then PLAIN1 else if rem <= 10 then PLAIN3 else PLAIN5
  }

  lemma ChosenIs(rem: nat)
    requires 0 < rem < 16
    ensures Encrypt(ExpandKey(KEY), Of(Chosen(rem))) == Fronted(Of(Head(rem)), rem, Encrypt(ExpandKey(KEY), Of(Head(rem))))
    ensures Fronted(Of(Head(rem)), rem, ZERO) == Of(Head(rem)) && Of(Head(rem))[15] == 0 && Of(Chosen(rem))[15] != 0
  {
    hide Encrypt, ExpandKey, Walked;
    Whole0();
    Whole1();
    Whole2();
    Whole3();
    Whole4();
    Whole5();
    KeysAreScheduled();
    WalkedIs(KEY, KEYS, Head(rem));
    WalkedIs(KEY, KEYS, Chosen(rem));
    if rem <= 5 {
      FirstFront(rem);
    } else if rem <= 10 {
      SecondFront(rem);
    } else {
      ThirdFront(rem);
    }
  }

  lemma FirstFront(rem: nat)
    requires 0 < rem <= 5
    ensures Of(CIPHER1) == Fronted(Of(PLAIN0), rem, Of(CIPHER0)) && Fronted(Of(PLAIN0), rem, ZERO) == Of(PLAIN0)
  {
  }

  lemma SecondFront(rem: nat)
    requires 5 < rem <= 10
    ensures Of(CIPHER3) == Fronted(Of(PLAIN2), rem, Of(CIPHER2)) && Fronted(Of(PLAIN2), rem, ZERO) == Of(PLAIN2)
  {
  }

  lemma ThirdFront(rem: nat)
    requires 10 < rem <= 15
    ensures Of(CIPHER5) == Fronted(Of(PLAIN4), rem, Of(CIPHER4)) && Fronted(Of(PLAIN4), rem, ZERO) == Of(PLAIN4)
  {
  }

  /** The buffer whose last whole block is the chosen one, under the tweak. */
  function Lossy(t: State, full: nat, rem: nat): (r: seq<Byte>)
    requires full > 0
    ensures |r| == 16 * full + rem
    ensures Last(r, full) == AddKey(Of(Chosen(rem)), TweakAt(t, full - 1))
  {
    Zeros(16 * full - 16) + AddKey(Of(Chosen(rem)), TweakAt(t, full - 1)) + Zeros(rem)
  }

  lemma FrontedTwice(a: State, b: State, rem: nat)
    requires rem < 16 && Fronted(a, rem, ZERO) == a
    ensures Fronted(Fronted(a, rem, b), rem, ZERO) == a
    ensures Fronted(b, rem, Fronted(a, rem, b)) == b
  {
    assert Fronted(a, rem, b)[..rem] == a[..rem] && Fronted(a, rem, b)[rem..] == b[rem..];
  }

  /** The last block encrypted is the ciphertext of the head, so decrypting begins with the head itself:
      its last byte comes back as zero. */
  lemma LossyComesBackAs(t: State, full: nat, rem: nat)
    requires full > 0 && 0 < rem < 16
    ensures var k := ExpandKey(KEY);
            var back := Process(Backward, k, t, Process(Forward, k, t, Lossy(t, full, rem)));
            AddKey(Last(back, full), TweakAt(t, full - 1))[15] == 0
  {
    hide Process, Last, Lossy, Encrypt, Decrypt, AddKey, TweakAt, ExpandKey, Fronted, Of, Head, Chosen;
    var k, tweak, head := ExpandKey(KEY), TweakAt(t, full - 1), Of(Head(rem));
    var data := Lossy(t, full, rem);
    var there := Process(Forward, k, t, data);
    ChosenIs(rem);
    LastBlock(Forward, k, t, data, full, rem);
    KeyUndone(Of(Chosen(rem)), tweak);
    FrontedTwice(head, Encrypt(k, head), rem);
    LastBlock(Backward, k, t, there, full, rem);
    CipherRoundTrip(k, head);
    FrontedLast(Decrypt(k, Fronted(head, rem, ZERO)), rem, head);
  }

  lemma FrontedLast(a: State, rem: nat, b: State)
    requires rem < 16
    ensures Fronted(a, rem, b)[15] == b[15]
  {
  }

  /** For every tweak and every length above one block that is no whole number of blocks: a key and a
      buffer that decryption does not bring back. */
  lemma PartialBlockFails(t: State, full: nat, rem: nat) returns (key: seq<Byte>, data: seq<Byte>)
    requires full > 0 && 0 < rem < 16
    ensures |key| == 32 && |data| == 16 * full + rem
    ensures Process(Backward, ExpandKey(key), t, Process(Forward, ExpandKey(key), t, data)) != data
  {
    hide Process, Last, Lossy, AddKey, TweakAt, ExpandKey, Of, Head, Chosen;
    key, data := KEY, Lossy(t, full, rem);
    ChosenIs(rem);
    LossyComesBackAs(t, full, rem);
    KeyUndone(Of(Chosen(rem)), TweakAt(t, full - 1));
  }

  /** Under every tweak: decryption brings back every buffer of a length, whatever the key, if and only if
      the length is a whole number of blocks or less than one block. */
  lemma LengthRoundTripsIff(n: nat, t: State)
    ensures (forall key: seq<Byte>, data: seq<Byte> :: |key| == 32 && |data| == n ==>
               Process(Backward, ExpandKey(key), t, Process(Forward, ExpandKey(key), t, data)) == data)
            <==> n % 16 == 0 || n < 16
  {
    hide Process, ExpandKey;
    if n % 16 == 0 || n < 16 {
      forall key: seq<Byte>, data: seq<Byte> | |key| == 32 && |data| == n
        ensures Process(Backward, ExpandKey(key), t, Process(Forward, ExpandKey(key), t, data)) == data
      {
        XtsRoundTrip(Forward, ExpandKey(key), t, data);
      }
    } else {
      var key, data := PartialBlockFails(t, n / 16, n % 16);
    }
  }
}
