/** `AesXts`: encryption and decryption of a buffer in place, with the tweak recomputed for
    every block. */
module Xts {
  import opened Gf256
  import opened BlockCipher
  import opened XtsMode
  import opened Aes

  /** `gf_mul128`: one pass with a running carry. */
  method GfMul128(block: array<Byte>)
    requires block.Length == 16
    modifies block
    ensures block[..] == Double128(old(block[..]))
  {
    hide Shifted, Folded, TopBit, ShiftIn;
    ghost var s := block[..];
    var carry: Byte := 0;
    for i := 0 to 16
      invariant i > 0 ==> block[0] == ShiftIn(s[0], 0)
      invariant forall k :: 1 <= k < i ==> block[k] == Shifted(s[k], s[k - 1])
      invariant forall k :: i <= k < 16 ==> block[k] == s[k]
      invariant carry == if i == 0 then 0 else TopBit(s[i - 1])
    {
      var byte := block[i];
      if i > 0 {
        CarryIn(byte, s[i - 1]);
      }
      block[i] := ShiftIn(byte, carry);
      carry := TopBit(byte);
    }
    FoldIn(s[0], s[15]);
    if carry != 0 {
      block[0] := Reduced(block[0]);
    }
  }

  function TopBit(b: Byte): Byte {
    (b >> 7) & 1
  }

  function ShiftIn(b: Byte, carry: Byte): Byte {
    (b << 1) | carry
  }

  function Reduced(b: Byte): Byte {
    b ^ 0x87
  }

  lemma CarryIn(b: Byte, below: Byte)
    ensures ShiftIn(b, TopBit(below)) == Shifted(b, below)
  {
  }

  lemma FoldIn(b: Byte, top: Byte)
    ensures Folded(b, top) == if TopBit(top) != 0 then Reduced(ShiftIn(b, 0)) else ShiftIn(b, 0)
  {
  }

  /** `xor_block` over a whole block at offset `off`, or `xor_last_block` over its first
      `len` bytes. */
  method XorAt(data: array<Byte>, off: nat, tweak: State, len: nat)
    requires off + 16 <= data.Length && len <= 16
    modifies data
    ensures data[..] == Splice(old(data[..]), off, AddPart(old(data[..])[off..off + 16], tweak, len))
  {
    ghost var s := data[..];
    for i := 0 to len
      invariant forall k :: 0 <= k < i ==> data[off + k] == s[off + k] ^ tweak[k]
      invariant forall k :: 0 <= k < data.Length && !(off <= k < off + i) ==> data[k] == s[k]
    {
      data[off + i] := data[off + i] ^ tweak[i];
    }
    ghost var t := AddPart(s[off..off + 16], tweak, len);
    forall k | 0 <= k < data.Length
      ensures data[k] == Splice(s, off, t)[k]
    {
      SpliceAt(s, off, t, k);
    }
  }

  lemma WholePart(b: State, tweak: State)
    ensures AddPart(b, tweak, 16) == AddKey(b, tweak)
  {
  }

  /** The first `len` bytes from `off`, padded with zeroes to a block. */
  method Copy(data: array<Byte>, off: nat, len: nat) returns (block: array<Byte>)
    requires off + len <= data.Length && len <= 16
    ensures fresh(block) && block.Length == 16
    ensures block[..] == data[off..off + len] + seq(16 - len, i => 0)
  {
    block := new Byte[16](i => 0);
    for k := 0 to len
      invariant forall j :: 0 <= j < k ==> block[j] == data[off + j]
      invariant forall j :: k <= j < 16 ==> block[j] == 0
    {
      block[k] := data[off + k];
    }
  }

  method Paste(data: array<Byte>, off: nat, block: array<Byte>, len: nat)
    requires off + len <= data.Length && len <= block.Length && data != block
    modifies data
    ensures data[..] == Splice(old(data[..]), off, block[..len])
  {
    ghost var s := data[..];
    for k := 0 to len
      invariant forall j :: 0 <= j < k ==> data[off + j] == block[j]
      invariant forall j :: 0 <= j < data.Length && !(off <= j < off + k) ==> data[j] == s[j]
    {
      data[off + k] := block[k];
    }
    forall j | 0 <= j < data.Length
      ensures data[j] == Splice(s, off, block[..len])[j]
    {
      SpliceAt(s, off, block[..len], j);
    }
  }

  lemma SpliceRead(data: seq<Byte>, off: nat, b: seq<Byte>)
    requires off + |b| <= |data|
    ensures Splice(data, off, b)[off..off + |b|] == b
  {
  }

  lemma SpliceTwice(data: seq<Byte>, off: nat, a: seq<Byte>, b: seq<Byte>)
    requires off + |b| <= |data| && |a| == |b|
    ensures Splice(Splice(data, off, a), off, b) == Splice(data, off, b)
  {
  }

  lemma SpliceAll(data: seq<Byte>, b: seq<Byte>)
    requires |b| == |data|
    ensures Splice(data, 0, b) == b && data[0..|data|] == data
  {
  }

  class AesXts {
    const key1: Aes256Key
    const key2: Aes256Key

    /** `from_xts_key`: two AES-256 keys side by side. */
    constructor (key: seq<Byte>)
      requires |key| == 64
      ensures key1.roundKeys == ExpandKey(key[..32]) && key2.roundKeys == ExpandKey(key[32..])
    {
      key1 := new Aes256Key(key[..32]);
      key2 := new Aes256Key(key[32..]);
    }

    /** The encrypted tweak multiplied `i` times by x. */
    method BlockTweak(t: State, i: nat) returns (r: State)
      ensures r == TweakAt(t, i)
    {
      hide Double128;
      var block := new Byte[16](k requires 0 <= k < 16 => t[k]);
      assert block[..] == t;
      for n := 0 to i
        invariant block[..] == TweakAt(t, n)
      {
        GfMul128(block);
      }
      r := block[..];
    }

    method CipherBlock(d: Direction, block: array<Byte>)
      requires block.Length == 16
      modifies block
      ensures block[..] == Cipher(d, key1.roundKeys, old(block[..]))
    {
      if d.Forward? {
        key1.EncryptBlock(block);
      } else {
        key1.DecryptBlock(block);
      }
    }

    /** One block of the loop: tweak, cipher, tweak, on the bytes of the buffer itself. */
    method ProcessBlock(d: Direction, data: array<Byte>, off: nat, tweak: State)
      requires off + 16 <= data.Length
      modifies data
      ensures data[..] == Splice(old(data[..]), off, TweakedBlock(d, key1.roundKeys, tweak, old(data[..])[off..off + 16]))
    {
      hide Cipher, AddKey, AddPart, Splice;
      ghost var s := data[..];
      ghost var x := AddKey(s[off..off + 16], tweak);
      XorAt(data, off, tweak, 16);
      WholePart(s[off..off + 16], tweak);
      SpliceRead(s, off, x);
      var block := Copy(data, off, 16);
      assert block[..] == x;
      CipherBlock(d, block);
      assert block[..16] == block[..];
      SpliceTwice(s, off, x, block[..]);
      Paste(data, off, block, 16);
      SpliceRead(s, off, block[..]);
      WholePart(block[..], tweak);
      XorAt(data, off, tweak, 16);
      SpliceTwice(s, off, block[..], AddKey(block[..], tweak));
    }

    /** The trailing branch for a buffer that does not end on a block boundary. */
    method StealFromLast(d: Direction, data: array<Byte>, last: nat, rem: nat, tweak: State)
      requires last + 16 <= data.Length && rem < 16
      modifies data
      ensures data[..] == Splice(old(data[..]), last, Stolen(d, key1.roundKeys, tweak, old(data[..])[last..last + rem]))
    {
      hide Cipher, AddPart, Splice;
      ghost var part := data[last..last + rem];
      ghost var padded := part + seq(16 - rem, i => 0);
      var stolen := Copy(data, last, rem);
      assert stolen[..] == padded;
      XorAt(stolen, 0, tweak, rem);
      SpliceAll(padded, AddPart(padded, tweak, rem));
      CipherBlock(d, stolen);
      ghost var c := stolen[..];
      XorAt(stolen, 0, tweak, rem);
      SpliceAll(c, AddPart(c, tweak, rem));
      Paste(data, last, stolen, rem);
    }

    /** `encrypt` and `decrypt`: the same steps, with the block cipher run one way or the
        other; the tweak is always encrypted. */
    method Run(d: Direction, data: array<Byte>, tweak: State)
      modifies data
      ensures data[..] == Process(d, key1.roundKeys, Encrypt(key2.roundKeys, tweak), old(data[..]))
    {
      hide Encrypt, TweakedBlock, TweakAt, Stolen, Splice;
      if data.Length < 16 {
        return;
      }
      var tweakBlock := new Byte[16](k requires 0 <= k < 16 => tweak[k]);
      assert tweakBlock[..] == tweak;
      key2.EncryptBlock(tweakBlock);
      var t: State := tweakBlock[..];
      var fullBlocks := data.Length / 16;
      var remainder := data.Length % 16;
      ghost var s := data[..];
      for i := 0 to fullBlocks
        invariant data[..] == BlocksDone(d, key1.roundKeys, t, s, i)
      {
        var blockTweak := BlockTweak(t, i);
        ProcessBlock(d, data, 16 * i, blockTweak);
      }
      if remainder > 0 {
        var lastTweak := BlockTweak(t, fullBlocks - 1);
        StealFromLast(d, data, 16 * (fullBlocks - 1), remainder, lastTweak);
      }
    }

    method EncryptBuffer(data: array<Byte>, tweak: State)
      modifies data
      ensures data[..] == Process(Forward, key1.roundKeys, Encrypt(key2.roundKeys, tweak), old(data[..]))
    {
      Run(Forward, data, tweak);
    }

    method DecryptBuffer(data: array<Byte>, tweak: State)
      modifies data
      ensures data[..] == Process(Backward, key1.roundKeys, Encrypt(key2.roundKeys, tweak), old(data[..]))
    {
      Run(Backward, data, tweak);
    }

    /** A page written encrypted and read back is the page that was written. */
    method PageThereAndBack(data: array<Byte>, tweak: State)
      requires data.Length % 16 == 0 || data.Length < 16
      modifies data
      ensures data[..] == old(data[..])
    {
      hide Process;
      XtsRoundTrip(Forward, key1.roundKeys, Encrypt(key2.roundKeys, tweak), data[..]);
      EncryptBuffer(data, tweak);
      DecryptBuffer(data, tweak);
    }
  }
}
