/** XTS over the block cipher (sections 5.2 to 5.4 of IEEE Std 1619-2007): the tweak chain in
    GF(2^128), what the code makes of a buffer of any length, and what comes back. */
module XtsMode {
  import opened Gf256
  import opened BlockCipher

  // ---- multiplication by x in GF(2^128) -------------------------------------------------

  /** `gf_mul128` on little-endian bytes: shift left with the carries, then fold the last
      carry back as 0x87. */
  function Double128(t: State): State {
    seq(16, i requires 0 <= i < 16 =>
      if i == 0 then Folded(t[0], t[15]) else Shifted(t[i], t[i - 1]))
  }

  function Shifted(b: Byte, below: Byte): Byte {
    (b << 1) | ((below >> 7) & 1)
  }

  function Folded(b: Byte, top: Byte): Byte {
    if (top >> 7) & 1 != 0 then (b << 1) ^ 0x87 else b << 1
  }

  function BitAt(b: Byte, j: nat): bool {
    match j
    case 0 => b & 0x01 != 0 case 1 => b & 0x02 != 0 case 2 => b & 0x04 != 0 case 3 => b & 0x08 != 0
    case 4 => b & 0x10 != 0 case 5 => b & 0x20 != 0 case 6 => b & 0x40 != 0 case _ => b & 0x80 != 0
  }

  /** The polynomial over GF(2) a block stands for: bit j of byte i is the coefficient of
      x^(8i + j). */
  function Poly(t: State): set<nat> {
    set k: nat | k < 128 && BitAt(t[k / 8], k % 8)
  }

  /** The exponents of x^7 + x^2 + x + 1, which x^128 is replaced by. */
  const REDUCTION: set<nat> := {0, 1, 2, 7}

  function SymmetricDifference(a: set<nat>, b: set<nat>): set<nat> {
    (a - b) + (b - a)
  }

  /** x times a polynomial, modulo x^128 + x^7 + x^2 + x + 1. */
  function TimesX(p: set<nat>): set<nat> {
    var shifted := set k | k in p && k < 127 :: k + 1;
    if 127 in p then SymmetricDifference(shifted, REDUCTION) else shifted
  }

  lemma ShiftedBits(b: Byte, below: Byte, j: nat)
    requires j < 8
    ensures BitAt(Shifted(b, below), j) == if j == 0 then BitAt(below, 7) else BitAt(b, j - 1)
  {
  }

  lemma FoldedBits(b: Byte, top: Byte, j: nat)
    requires j < 8
    ensures BitAt(Folded(b, top), j) ==
            ((j > 0 && BitAt(b, j - 1)) != (BitAt(top, 7) && j in REDUCTION))
  {
  }

  lemma CoefficientOfDouble(t: State, k: nat)
    requires k < 128
    ensures k in Poly(Double128(t)) <==> ((k > 0 && k - 1 in Poly(t)) != (127 in Poly(t) && k in REDUCTION))
  {
    hide BitAt, Shifted, Folded;
    var i, j := k / 8, k % 8;
    if i == 0 {
      FoldedBits(t[0], t[15], j);
      assert k > 0 ==> (k - 1) / 8 == 0 && (k - 1) % 8 == j - 1;
    } else {
      ShiftedBits(t[i], t[i - 1], j);
      assert if j == 0 then (k - 1) / 8 == i - 1 && (k - 1) % 8 == 7 else (k - 1) / 8 == i && (k - 1) % 8 == j - 1;
    }
  }

  /** The byte-carry loop multiplies by x in GF(2^128). */
  lemma DoubleIsTimesX(t: State)
    ensures Poly(Double128(t)) == TimesX(Poly(t))
  {
    hide Double128, BitAt;
    forall k: nat
      ensures k in Poly(Double128(t)) <==> k in TimesX(Poly(t))
    {
      if k < 128 {
        CoefficientOfDouble(t, k);
      }
    }
  }

  // ---- the tweak of each block -----------------------------------------------------------

  function TweakAt(t: State, i: nat): State {
    if i == 0 then t else Double128(TweakAt(t, i - 1))
  }

  /** `p` times x^i. */
  function TimesPower(p: set<nat>, i: nat): set<nat> {
    if i == 0 then p else TimesX(TimesPower(p, i - 1))
  }

  /** Block i is tweaked with the encrypted tweak times x^i. */
  lemma {:induction false} TweakIsPower(t: State, i: nat)
    ensures Poly(TweakAt(t, i)) == TimesPower(Poly(t), i)
  {
    hide Double128, Poly, TimesX;
    if i > 0 {
      TweakIsPower(t, i - 1);
      DoubleIsTimesX(TweakAt(t, i - 1));
    }
  }

  // ---- buffers ------------------------------------------------------------------------------

  datatype Direction = Forward | Backward

  function Cipher(d: Direction, k: Schedule, s: State): State {
    match d case Forward => Encrypt(k, s) case Backward => Decrypt(k, s)
  }

  function Inverse(d: Direction): Direction {
    match d case Forward => Backward case Backward => Forward
  }

  /** Exclusive or with the tweak, cipher, exclusive or with the tweak. */
  function TweakedBlock(d: Direction, k: Schedule, tweak: State, b: State): State {
    AddKey(Cipher(d, k, AddKey(b, tweak)), tweak)
  }

  function BlockAt(data: seq<Byte>, i: nat): State
    requires 16 * i + 16 <= |data|
  {
    data[16 * i..16 * i + 16]
  }

  /** The buffer with the bytes from `off` replaced by `b`. */
  function Splice(data: seq<Byte>, off: nat, b: seq<Byte>): (r: seq<Byte>)
    requires off + |b| <= |data|
    ensures |r| == |data|
  {
    data[..off] + b + data[off + |b|..]
  }

  lemma SpliceAt(data: seq<Byte>, off: nat, b: seq<Byte>, j: nat)
    requires off + |b| <= |data| && j < |data|
    ensures Splice(data, off, b)[j] == if off <= j < off + |b| then b[j - off] else data[j]
  {
  }

  /** The buffer with its first `n` blocks processed. */
  function BlocksDone(d: Direction, k: Schedule, t: State, data: seq<Byte>, n: nat): (r: seq<Byte>)
    requires 16 * n <= |data|
    ensures |r| == |data|
  {
    if n == 0 then data
    else
      var before := BlocksDone(d, k, t, data, n - 1);
      Splice(before, 16 * (n - 1), TweakedBlock(d, k, TweakAt(t, n - 1), BlockAt(before, n - 1)))
  }

  /** The first `len` bytes of a block with the tweak added. */
  function AddPart(b: State, tweak: State, len: nat): State {
    seq(16, i requires 0 <= i < 16 => if i < len then b[i] ^ tweak[i] else b[i])
  }

  /** The leading `rem` bytes, padded with zeroes, put through the cipher and cut off again. */
  function Stolen(d: Direction, k: Schedule, tweak: State, part: seq<Byte>): (r: seq<Byte>)
    requires |part| < 16
    ensures |r| == |part|
  {
    var padded := part + seq(16 - |part|, i => 0);
    AddPart(Cipher(d, k, AddPart(padded, tweak, |part|)), tweak, |part|)[..|part|]
  }

  /** What `encrypt` and `decrypt` make of a buffer: nothing below one block; otherwise every
      whole block, and then, when bytes are left over, the first of the last block again. */
  function Process(d: Direction, k: Schedule, t: State, data: seq<Byte>): (r: seq<Byte>)
    ensures |r| == |data|
  {
    if |data| < 16 then data
    else
      var full, rem := |data| / 16, |data| % 16;
      var done := BlocksDone(d, k, t, data, full);
      if rem == 0 then done
      else
        var last := 16 * (full - 1);
        Splice(done, last, Stolen(d, k, TweakAt(t, full - 1), done[last..last + rem]))
  }

  // ---- what comes back ------------------------------------------------------------------------

  lemma BlockUndone(d: Direction, k: Schedule, tweak: State, b: State)
    ensures TweakedBlock(Inverse(d), k, tweak, TweakedBlock(d, k, tweak, b)) == b
  {
    hide AddKey, Encrypt, Decrypt;
    var x := AddKey(b, tweak);
    KeyUndone(Cipher(d, k, x), tweak);
    CipherRoundTrip(k, x);
    KeyUndone(b, tweak);
  }

  /** After `n` blocks, block i is processed if i < n, and everything else is as it was. */
  lemma {:induction false} BlocksDoneAt(d: Direction, k: Schedule, t: State, data: seq<Byte>, n: nat, i: nat)
    requires 16 * n <= |data|
    ensures i < n ==> BlockAt(BlocksDone(d, k, t, data, n), i) == TweakedBlock(d, k, TweakAt(t, i), BlockAt(data, i))
    ensures BlocksDone(d, k, t, data, n)[16 * n..] == data[16 * n..]
  {
    hide TweakedBlock, TweakAt;
    if n > 0 {
      BlocksDoneAt(d, k, t, data, n - 1, i);
      var before, now := BlocksDone(d, k, t, data, n - 1), BlocksDone(d, k, t, data, n);
      assert BlockAt(before, n - 1) == before[16 * (n - 1)..][..16] == data[16 * (n - 1)..][..16] == BlockAt(data, n - 1);
      assert now[16 * n..] == before[16 * (n - 1)..][16..] == data[16 * (n - 1)..][16..] == data[16 * n..];
      assert now[..16 * (n - 1)] == before[..16 * (n - 1)];
      assert now[16 * (n - 1)..16 * n] == TweakedBlock(d, k, TweakAt(t, n - 1), BlockAt(data, n - 1));
      if i < n - 1 {
        assert BlockAt(now, i) == now[..16 * (n - 1)][16 * i..16 * i + 16];
        assert BlockAt(before, i) == before[..16 * (n - 1)][16 * i..16 * i + 16];
      }
    }
  }

  /** Bytes outside the last whole block come back, at every length; and the bytes after it
      are never changed at all. */
  lemma OutsideLastBlock(d: Direction, k: Schedule, t: State, data: seq<Byte>)
    requires |data| >= 16
    ensures var full := |data| / 16;
            var there := Process(d, k, t, data);
            var back := Process(Inverse(d), k, t, there);
            && there[16 * full..] == data[16 * full..]
            && back[16 * full..] == data[16 * full..]
            && forall i :: 0 <= i < full - 1 ==> BlockAt(back, i) == BlockAt(data, i)
  {
    hide TweakedBlock, TweakAt, Stolen;
    var full := |data| / 16;
    ProcessAt(d, k, t, data);
    var there := Process(d, k, t, data);
    ProcessAt(Inverse(d), k, t, there);
    forall i | 0 <= i < full - 1
      ensures BlockAt(Process(Inverse(d), k, t, there), i) == BlockAt(data, i)
    {
      BlockUndone(d, k, TweakAt(t, i), BlockAt(data, i));
    }
  }

  lemma ProcessAt(d: Direction, k: Schedule, t: State, data: seq<Byte>)
    requires |data| >= 16
    ensures var full := |data| / 16;
            var r := Process(d, k, t, data);
            && r[16 * full..] == data[16 * full..]
            && (forall i :: 0 <= i < full - 1 ==> BlockAt(r, i) == TweakedBlock(d, k, TweakAt(t, i), BlockAt(data, i)))
            && (|data| % 16 == 0 ==> BlockAt(r, full - 1) == TweakedBlock(d, k, TweakAt(t, full - 1), BlockAt(data, full - 1)))
  {
    hide TweakedBlock, TweakAt, Stolen;
    var full, rem := |data| / 16, |data| % 16;
    var last := 16 * (full - 1);
    var done, r := BlocksDone(d, k, t, data, full), Process(d, k, t, data);
    forall i | 0 <= i < full
      ensures BlockAt(done, i) == TweakedBlock(d, k, TweakAt(t, i), BlockAt(data, i))
    {
      BlocksDoneAt(d, k, t, data, full, i);
    }
    BlocksDoneAt(d, k, t, data, full, 0);
    assert r[..last] == done[..last];
    assert r[last + rem..] == done[last + rem..];
    assert r[16 * full..] == r[last + rem..][16 - rem..];
    forall i | 0 <= i < full - 1
      ensures BlockAt(r, i) == BlockAt(done, i)
    {
      assert BlockAt(r, i) == r[..last][16 * i..16 * i + 16];
      assert BlockAt(done, i) == done[..last][16 * i..16 * i + 16];
    }
  }

  /** Every whole block but the last of a buffer with left-over bytes is enciphered between two additions of
      the encrypted tweak times x^i (sections 5.3 and 5.4 of IEEE Std 1619-2007). */
  lemma XtsBlocks(d: Direction, k: Schedule, t: State, data: seq<Byte>, i: nat)
    requires 16 * i + 16 <= |data| && (|data| % 16 == 0 || i < |data| / 16 - 1)
    ensures exists tweak: State :: Poly(tweak) == TimesPower(Poly(t), i)
              && BlockAt(Process(d, k, t, data), i) == AddKey(if d.Forward? then Encrypt(k, AddKey(BlockAt(data, i), tweak))
                                                              else Decrypt(k, AddKey(BlockAt(data, i), tweak)), tweak)
  {
    hide Poly, AddKey, Encrypt, Decrypt, Process, TweakAt, BlockAt, TimesPower;
    TweakIsPower(t, i);
    ProcessAt(d, k, t, data);
    assert Poly(TweakAt(t, i)) == TimesPower(Poly(t), i);
  }

  /** XTS decryption undoes XTS encryption (and conversely) for every key, tweak and buffer of
      whole blocks, or shorter than one block. */
  lemma XtsRoundTrip(d: Direction, k: Schedule, t: State, data: seq<Byte>)
    requires |data| % 16 == 0 || |data| < 16
    ensures Process(Inverse(d), k, t, Process(d, k, t, data)) == data
  {
    hide TweakedBlock, TweakAt, Stolen, BlocksDone;
    if |data| >= 16 {
      var full := |data| / 16;
      var there := Process(d, k, t, data);
      var back := Process(Inverse(d), k, t, there);
      ProcessAt(d, k, t, data);
      ProcessAt(Inverse(d), k, t, there);
      forall i | 0 <= i < full
        ensures BlockAt(back, i) == BlockAt(data, i)
      {
        BlockUndone(d, k, TweakAt(t, i), BlockAt(data, i));
      }
      SameBlocks(back, data);
    }
  }

  lemma SameBlocks(a: seq<Byte>, b: seq<Byte>)
    requires |a| == |b| && |a| % 16 == 0
    requires forall i :: 0 <= i < |a| / 16 ==> BlockAt(a, i) == BlockAt(b, i)
    ensures a == b
  {
    forall j | 0 <= j < |a|
      ensures a[j] == b[j]
    {
      var i := j / 16;
      assert BlockAt(a, i)[j % 16] == a[j] && BlockAt(b, i)[j % 16] == b[j];
    }
  }
}
