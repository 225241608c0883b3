/** Bytes on the device: reads, writes, little-endian numbers and the journal's superblock. */
module JournalFormat {
  type Byte = n: nat | n < 256

  type Disk = seq<Byte>

  const BLOCK: nat := 4096

  const JSB_MAGIC: nat := 0x4A53_4246
  const JDB_MAGIC: nat := 0x4A44_4246
  const JCB_MAGIC: nat := 0x4A43_4246

  // ---- the device ------------------------------------------------------------------------------

  /** The disk with `data` written at an offset where it fits. */
  function Patched(disk: Disk, at: nat, data: seq<Byte>): (r: Disk)
    requires at + |data| <= |disk|
    ensures |r| == |disk|
    ensures forall p :: 0 <= p < |disk| ==> r[p] == if at <= p < at + |data| then data[p - at] else disk[p]
  {
    disk[..at] + data + disk[at + |data|..]
  }

  /** A write fails when it would pass the end of the device; writing nothing always succeeds. */
  datatype Io = Io(ok: bool, disk: Disk)

  function Write(disk: Disk, at: nat, data: seq<Byte>): Io {
    if data == [] then Io(true, disk)
    else if at + |data| <= |disk| then Io(true, Patched(disk, at, data))
    else Io(false, disk)
  }

  /** The first block's worth of the data, filled up with zeros. */
  function Padded(data: seq<Byte>): (r: seq<Byte>)
    ensures |r| == BLOCK
    ensures forall i :: 0 <= i < BLOCK ==> r[i] == if i < |data| then data[i] else 0
  {
    seq(BLOCK, i requires 0 <= i < BLOCK => if i < |data| then data[i] else 0)
  }

  // ---- numbers -----------------------------------------------------------------------------------

  function Power(k: nat): (r: nat)
    ensures r > 0
  {
    if k == 0 then 1 else 256 * Power(k - 1)
  }

  /** The low `k` bytes of a number, least significant first. */
  function Encoded(n: nat, k: nat): (r: seq<Byte>)
    ensures |r| == k
    decreases k
  {
    if k == 0 then [] else [n % 256] + Encoded(n / 256, k - 1)
  }

  function Decoded(s: seq<Byte>): nat {
    if s == [] then 0 else s[0] + 256 * Decoded(s[1..])
  }

  lemma SplitModulo(n: nat, m: nat)
    requires m > 0
    ensures n % (256 * m) == n % 256 + 256 * (n / 256 % m)
  {
    var q, r := n / 256, n % 256;
    var a, b := q / m, q % m;
    assert n == 256 * (a * m + b) + r;
    assert n == a * (256 * m) + (256 * b + r);
    assert 0 <= 256 * b + r < 256 * m;
    ModuloIs(n, 256 * m, a, 256 * b + r);
  }

  lemma ModuloIs(n: nat, m: nat, q: nat, r: nat)
    requires m > 0 && n == q * m + r && r < m
    ensures n % m == r
  {
    var d := n / m;
    assert d * m <= n < (d + 1) * m;
    ProductsGrow(d + 1, q, m);
    ProductsGrow(q + 1, d, m);
  }

  lemma ProductsGrow(a: nat, b: nat, m: nat)
    ensures a <= b ==> a * m <= b * m
  {
  }

  /** Decoding what was encoded gives back the number, in the width encoded. */
  lemma {:induction false} DecodesBack(n: nat, k: nat)
    ensures Decoded(Encoded(n, k)) == n % Power(k)
    decreases k
  {
    if k > 0 {
      DecodesBack(n / 256, k - 1);
      assert Encoded(n, k)[1..] == Encoded(n / 256, k - 1);
      SplitModulo(n, Power(k - 1));
    }
  }

  function Field(block: seq<Byte>, at: nat, k: nat): nat
    requires at + k <= |block|
  {
    Decoded(block[at..at + k])
  }

  // ---- the superblock ------------------------------------------------------------------------------

  /** Magic, block size, area, sequence, start, head and tail, then three empty words. */
  function SuperBytes(max: nat, first: nat, sequence: nat, head: nat, tail: nat): (r: seq<Byte>)
    ensures |r| == 68
  {
    (Encoded(JSB_MAGIC, 4) + Encoded(BLOCK, 4) + Encoded(max, 8) + Encoded(first, 8) + Encoded(sequence, 8) + Encoded(tail, 8))
    + Encoded(head, 8) + Encoded(tail, 8) + Encoded(0, 12)
  }

  function SuperBlock(max: nat, first: nat, sequence: nat, head: nat, tail: nat): (r: seq<Byte>)
    ensures |r| == BLOCK
  {
    Padded(SuperBytes(max, first, sequence, head, tail))
  }

  lemma FieldOf(a: seq<Byte>, n: nat, k: nat, rest: seq<Byte>)
    requires |a + Encoded(n, k) + rest| <= BLOCK
    ensures Field(Padded(a + Encoded(n, k) + rest), |a|, k) == n % Power(k)
  {
    var s := a + Encoded(n, k) + rest;
    assert Padded(s)[|a|..|a| + k] == Encoded(n, k);
    DecodesBack(n, k);
  }

  /** What a superblock written with a head and a tail reads back as, field by field. */
  lemma SuperFields(max: nat, first: nat, sequence: nat, head: nat, tail: nat)
    ensures var b := SuperBlock(max, first, sequence, head, tail);
            && Field(b, 0, 4) == JSB_MAGIC && Field(b, 4, 4) == BLOCK
            && Field(b, 8, 8) == max % Power(8) && Field(b, 16, 8) == first % Power(8)
            && Field(b, 24, 8) == sequence % Power(8) && Field(b, 32, 8) == tail % Power(8)
            && Field(b, 40, 8) == head % Power(8) && Field(b, 48, 8) == tail % Power(8)
            && forall p :: 56 <= p < BLOCK ==> b[p] == 0
  {
    hide Encoded;
    hide Padded;
    var s := SuperBytes(max, first, sequence, head, tail);
    var a0 := Encoded(JSB_MAGIC, 4);
    var a1 := a0 + Encoded(BLOCK, 4);
    var a2 := a1 + Encoded(max, 8);
    var a3 := a2 + Encoded(first, 8);
    var a4 := a3 + Encoded(sequence, 8);
    var a5 := a4 + Encoded(tail, 8);
    var a6 := a5 + Encoded(head, 8);
    assert s == [] + Encoded(JSB_MAGIC, 4) + s[4..];
    assert s == a0 + Encoded(BLOCK, 4) + s[8..];
    assert s == a1 + Encoded(max, 8) + s[16..];
    assert s == a2 + Encoded(first, 8) + s[24..];
    assert s == a3 + Encoded(sequence, 8) + s[32..];
    assert s == a4 + Encoded(tail, 8) + s[40..];
    assert s == a5 + Encoded(head, 8) + s[48..];
    assert s == a6 + Encoded(tail, 8) + s[56..];
    FieldOf([], JSB_MAGIC, 4, s[4..]);
    FieldOf(a0, BLOCK, 4, s[8..]);
    FieldOf(a1, max, 8, s[16..]);
    FieldOf(a2, first, 8, s[24..]);
    FieldOf(a3, sequence, 8, s[32..]);
    FieldOf(a4, tail, 8, s[40..]);
    FieldOf(a5, head, 8, s[48..]);
    FieldOf(a6, tail, 8, s[56..]);
    FourBytes();
    EncodedZero(12);
    assert s[56..] == Encoded(0, 12);
  }

  lemma {:induction false} EncodedZero(k: nat)
    ensures forall i :: 0 <= i < k ==> Encoded(0, k)[i] == 0
    decreases k
  {
    if k > 0 {
      EncodedZero(k - 1);
      assert Encoded(0, k) == [0] + Encoded(0, k - 1);
    }
  }

  lemma FourBytes()
    ensures Power(4) == 0x1_0000_0000
  {
    assert Power(2) == 65536;
  }
}
