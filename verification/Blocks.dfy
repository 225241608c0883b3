/** Power-of-two page blocks: alignment, buddies and partitions of a set of page
    frames.  Everything the buddy allocator does to memory is one of four moves on
    such a partition, and each move is proved here once. */
module Blocks {
  const MAX_ORDER: nat := 10

  function Pow2(o: nat): (r: nat)
    ensures r >= 1
  {
    if o == 0 then 1 else 2 * Pow2(o - 1)
  }

  /** 2^order page frames starting at page frame number `pfn`. */
  datatype Block = Block(pfn: nat, order: nat)

  ghost predicate Aligned(b: Block) {
    b.pfn % Pow2(b.order) == 0
  }

  predicate Contains(b: Block, x: nat) {
    b.pfn <= x < b.pfn + Pow2(b.order)
  }

  /** The other half of the next larger aligned block: the bit `order` of `pfn` flipped. */
  function Buddy(b: Block): (r: Block)
    requires Aligned(b)
  {
    var size := Pow2(b.order);
    if (b.pfn / size) % 2 == 0 then Block(b.pfn + size, b.order)
    else
      QuotientAtLeastOne(b.pfn, size);
      Block(b.pfn - size, b.order)
  }

  /** The block a pair of buddies merges into. */
  function Parent(b: Block): (r: Block)
    requires Aligned(b)
  {
    var u := Buddy(b);
    Block(if u.pfn < b.pfn then u.pfn else b.pfn, b.order + 1)
  }

  function LeftHalf(b: Block): Block
    requires b.order > 0
  {
    Block(b.pfn, b.order - 1)
  }

  function RightHalf(b: Block): Block
    requires b.order > 0
  {
    Block(b.pfn + Pow2(b.order - 1), b.order - 1)
  }

  lemma QuotientAtLeastOne(p: nat, size: nat)
    requires size >= 1
    requires p / size != 0
    ensures p >= size
  {
    var q := p / size;
    assert p == q * size + p % size;
  }

  lemma MultipleBelow(a: nat, b: nat, k: nat)
    requires k >= 1 && a % k == 0 && b % k == 0
    requires a < b + k
    ensures a <= b
  {
    var i, j := a / k, b / k;
    assert a == i * k && b == j * k;
    assert i > j ==> i * k >= (j + 1) * k;
  }

  lemma EvenMultiple(a: nat, k: nat)
    requires k >= 1
    ensures a % (2 * k) == 0 <==> a % k == 0 && (a / k) % 2 == 0
  {
    if a % (2 * k) == 0 {
      var q := a / (2 * k);
      assert a == (2 * q) * k;
      ExactQuotient(2 * q, k);
    }
    if a % k == 0 && (a / k) % 2 == 0 {
      var q := (a / k) / 2;
      assert a == (a / k) * k == q * (2 * k);
      ExactQuotient(q, 2 * k);
    }
  }

  lemma ExactQuotient(q: nat, k: nat)
    requires k >= 1
    ensures (q * k) / k == q && (q * k) % k == 0
  {
    var a := q * k;
    var d := a / k;
    assert a == d * k + a % k;
    assert d < q ==> (d + 1) * k <= q * k;
    assert d > q ==> (q + 1) * k <= d * k;
  }

  /** An aligned block is aligned at every smaller size. */
  lemma {:induction false} AlignedBelow(p: nat, o: nat, k: nat)
    requires k <= o && p % Pow2(o) == 0
    ensures p % Pow2(k) == 0
    decreases o
  {
    if k < o {
      EvenMultiple(p, Pow2(o - 1));
      AlignedBelow(p, o - 1, k);
    }
  }

  lemma NextMultiple(p: nat, k: nat)
    requires k >= 1 && p % k == 0
    ensures (p + k) % k == 0 && (p + k) / k == p / k + 1
    ensures p >= k ==> (p - k) % k == 0 && (p - k) / k == p / k - 1
  {
    var q := p / k;
    assert p == q * k;
    assert p + k == (q + 1) * k;
    ExactQuotient(q + 1, k);
    if p >= k {
      assert q == 0 ==> p == 0;
      assert p - k == (q - 1) * k;
      ExactQuotient(q - 1, k);
    }
  }

  /** Aligned blocks are laminar: the smaller of two that meet lies inside the larger. */
  lemma Laminar(a: Block, b: Block, x: nat)
    requires Aligned(a) && Aligned(b) && a.order <= b.order
    requires Contains(a, x) && Contains(b, x)
    ensures b.pfn <= a.pfn && a.pfn + Pow2(a.order) <= b.pfn + Pow2(b.order)
    ensures a.order == b.order ==> a == b
  {
    var k := Pow2(a.order);
    AlignedBelow(b.pfn, b.order, a.order);
    PowMultiple(b.order, a.order);
    SumMultiple(b.pfn, Pow2(b.order), k);
    MultipleBelow(b.pfn, a.pfn, k);
    SumMultiple(a.pfn, k, k);
    var s := b.pfn + Pow2(b.order);
    MultipleBelow(a.pfn + k, s, k);
    if a.order == b.order {
      MultipleBelow(a.pfn, b.pfn, k);
    }
  }

  lemma {:induction false} PowMultiple(o: nat, k: nat)
    requires k <= o
    ensures Pow2(o) % Pow2(k) == 0
    decreases o
  {
    if k == o {
      ExactQuotient(1, Pow2(k));
    } else {
      PowMultiple(o - 1, k);
      var q := Pow2(o - 1) / Pow2(k);
      assert Pow2(o) == (2 * q) * Pow2(k);
      ExactQuotient(2 * q, Pow2(k));
    }
  }

  lemma SumMultiple(a: nat, b: nat, k: nat)
    requires k >= 1 && a % k == 0 && b % k == 0
    ensures (a + b) % k == 0
  {
    var i, j := a / k, b / k;
    assert a + b == (i + j) * k;
    ExactQuotient(i + j, k);
  }

  /** Buddies are aligned, disjoint, each other's buddy, and share their parent. */
  lemma BuddyFacts(b: Block)
    requires Aligned(b)
    ensures Aligned(Buddy(b)) && Buddy(b) != b && Buddy(b).order == b.order
    ensures Buddy(Buddy(b)) == b
    ensures Aligned(Parent(b)) && Parent(Buddy(b)) == Parent(b)
  {
    if (b.pfn / Pow2(b.order)) % 2 == 0 {
      EvenBuddy(b);
    } else {
      QuotientAtLeastOne(b.pfn, Pow2(b.order));
      var l := Block(b.pfn - Pow2(b.order), b.order);
      NextMultiple(b.pfn, Pow2(b.order));
      EvenBuddy(l);
    }
  }

  lemma EvenBuddy(l: Block)
    requires Aligned(l) && (l.pfn / Pow2(l.order)) % 2 == 0
    ensures var r := Block(l.pfn + Pow2(l.order), l.order);
            Aligned(r) && Buddy(l) == r && Buddy(r) == l && Aligned(Parent(l)) && Parent(r) == Parent(l)
  {
    NextMultiple(l.pfn, Pow2(l.order));
    EvenMultiple(l.pfn, Pow2(l.order));
  }

  /** The pages of the parent are exactly the pages of the two buddies, which share none. */
  lemma BuddyPages(b: Block, x: nat)
    requires Aligned(b)
    ensures Contains(Parent(b), x) <==> Contains(b, x) || Contains(Buddy(b), x)
    ensures !(Contains(b, x) && Contains(Buddy(b), x))
  {
    assert Pow2(b.order + 1) == 2 * Pow2(b.order);
  }

  /** The two halves of an aligned block are buddies. */
  lemma HalvesAreBuddies(b: Block)
    requires Aligned(b) && b.order > 0
    ensures Aligned(LeftHalf(b)) && Buddy(LeftHalf(b)) == RightHalf(b)
    ensures Parent(LeftHalf(b)) == b
  {
    EvenMultiple(b.pfn, Pow2(b.order - 1));
  }

  /** `blocks` cuts `pages` into aligned blocks: no page is left over or shared. */
  ghost predicate Partition(blocks: set<Block>, pages: set<nat>) {
    && (forall b :: b in blocks ==> Aligned(b) && b.order <= MAX_ORDER)
    && (forall b, x: nat :: b in blocks && Contains(b, x) ==> x in pages)
    && (forall x :: x in pages ==> exists b :: b in blocks && Contains(b, x))
    && (forall a, b, x: nat :: a in blocks && b in blocks && Contains(a, x) && Contains(b, x) ==> a == b)
  }

  ghost predicate Covered(blocks: set<Block>, x: nat) {
    exists b :: b in blocks && Contains(b, x)
  }

  /** Replacing blocks by others with the same pages keeps a partition. */
  lemma Replace(rest: set<Block>, was: set<Block>, now: set<Block>, pages: set<nat>)
    requires Partition(rest + was, pages) && rest !! was
    requires forall b :: b in now ==> Aligned(b) && b.order <= MAX_ORDER
    requires forall x: nat :: Covered(was, x) <==> Covered(now, x)
    requires forall a, b, x: nat :: a in now && b in now && Contains(a, x) && Contains(b, x) ==> a == b
    ensures Partition(rest + now, pages)
    ensures forall x: nat :: Covered(now, x) ==> !Covered(rest, x)
  {
    forall x | x in pages
      ensures exists b :: b in rest + now && Contains(b, x)
    {
      var b :| b in rest + was && Contains(b, x);
      if b in rest {
        assert b in rest + now;
      } else {
        assert Covered(was, x);
        var c :| c in now && Contains(c, x);
        assert c in rest + now;
      }
    }
    forall x: nat | Covered(now, x)
      ensures x in pages && !Covered(rest, x)
    {
      var c :| c in was && Contains(c, x);
      assert c in rest + was;
      assert forall a :: a in rest && Contains(a, x) ==> a in rest + was && a == c;
    }
    forall a, b, x: nat | a in rest + now && b in rest + now && Contains(a, x) && Contains(b, x)
      ensures a == b
    {
      assert a in now ==> Covered(now, x);
      assert b in now ==> Covered(now, x);
      assert a in rest ==> Covered(rest, x);
      assert b in rest ==> Covered(rest, x);
      assert a in rest && b in rest ==> a in rest + was && b in rest + was;
    }
    forall b, x: nat | b in rest + now && Contains(b, x)
      ensures x in pages
    {
      assert b in now ==> Covered(now, x);
      assert b in rest ==> b in rest + was;
    }
  }

  /** Splitting one block in two keeps the partition. */
  lemma SplitKeepsPartition(rest: set<Block>, b: Block, pages: set<nat>)
    requires Partition(rest + {b}, pages) && b !in rest && b.order > 0
    ensures Partition(rest + {LeftHalf(b), RightHalf(b)}, pages)
    ensures LeftHalf(b) !in rest && RightHalf(b) !in rest && LeftHalf(b) != RightHalf(b)
  {
    var l, r := LeftHalf(b), RightHalf(b);
    assert b in rest + {b};
    HalvesAreBuddies(b);
    BuddyFacts(l);
    Replace(rest, {b}, {l, r}, pages) by {
      forall x: nat
        ensures Covered({b}, x) <==> Covered({l, r}, x)
      {
        BuddyPages(l, x);
        if Contains(b, x) {
          assert b in {b};
          assert if Contains(l, x) then l in {l, r} else r in {l, r} && Contains(r, x);
        }
      }
    }
    assert Contains(b, l.pfn) && Contains(b, r.pfn) && Contains(l, l.pfn) && Contains(r, r.pfn);
  }

  /** Merging a block with its buddy keeps the partition. */
  lemma MergeKeepsPartition(rest: set<Block>, b: Block, pages: set<nat>)
    requires Aligned(b) && b.order < MAX_ORDER
    requires b !in rest && Buddy(b) !in rest
    requires Partition(rest + {b, Buddy(b)}, pages)
    ensures Partition(rest + {Parent(b)}, pages) && Parent(b) !in rest
  {
    var u, p := Buddy(b), Parent(b);
    BuddyFacts(b);
    Replace(rest, {b, u}, {p}, pages) by {
      forall x: nat
        ensures Covered({b, u}, x) <==> Covered({p}, x)
      {
        BuddyPages(b, x);
        if Contains(p, x) {
          assert p in {p};
          assert if Contains(b, x) then b in {b, u} else u in {b, u} && Contains(u, x);
        }
      }
    }
    assert b in rest + {b, u} && Contains(b, b.pfn) && Contains(p, b.pfn);
  }

  /** In a partition, the block that covers the start of an aligned block is either
      strictly larger (and then swallows the buddy too) or starts at the same page. */
  lemma HeadOrLarger(blocks: set<Block>, pages: set<nat>, b: Block, h: Block)
    requires Partition(blocks, pages) && b in blocks && b.order < MAX_ORDER
    requires h in blocks && Contains(h, Buddy(b).pfn)
    ensures h.pfn == Buddy(b).pfn && h.order <= b.order
  {
    var u := Buddy(b);
    BuddyFacts(b);
    if h.order > b.order {
      var p := Parent(b);
      assert Contains(p, u.pfn);
      Laminar(p, h, u.pfn);
      assert Contains(h, b.pfn) && Contains(b, b.pfn);
    } else {
      Laminar(h, u, u.pfn);
    }
  }

  /** Bitwise exclusive or of two natural numbers. */
  function Xor(a: nat, b: nat): nat
    decreases a + b
  {
    if a == 0 && b == 0 then 0 else (a + b) % 2 + 2 * Xor(a / 2, b / 2)
  }

  lemma {:induction false} XorZero(a: nat)
    ensures Xor(a, 0) == a
  {
    if a > 0 {
      XorZero(a / 2);
    }
  }

  lemma HalveQuotient(a: nat, k: nat)
    requires k >= 1
    ensures (a / 2) / k == a / (2 * k)
    ensures a % (2 * k) == 0 ==> a % 2 == 0 && (a / 2) % k == 0
  {
    var q, r := a / (2 * k), a % (2 * k);
    assert a == 2 * (q * k) + r;
    assert a / 2 == q * k + r / 2 && r / 2 < k;
    QuotientOf(a / 2, q, k, r / 2);
  }

  lemma QuotientOf(a: nat, q: nat, k: nat, r: nat)
    requires k >= 1 && r < k && a == q * k + r
    ensures a / k == q && a % k == r
  {
    var d := a / k;
    assert a == d * k + a % k;
    assert d < q ==> (d + 1) * k <= q * k;
    assert d > q ==> (q + 1) * k <= d * k;
  }

  /** Flipping bit `order` of an aligned page frame number is what names the buddy. */
  lemma {:induction false} XorNamesBuddy(b: Block)
    requires Aligned(b)
    ensures Xor(b.pfn, Pow2(b.order)) == Buddy(b).pfn
    decreases b.order
  {
    if b.order == 0 {
      XorOne(b.pfn);
    } else {
      var k := Pow2(b.order - 1);
      DoubleBuddy(b);
      XorNamesBuddy(Block(b.pfn / 2, b.order - 1));
      XorDouble(b.pfn / 2, k);
    }
  }

  lemma XorOne(a: nat)
    ensures Xor(a, 1) == if a % 2 == 0 then a + 1 else a - 1
  {
    XorZero(a / 2);
  }

  lemma XorDouble(a: nat, b: nat)
    ensures Xor(2 * a, 2 * b) == 2 * Xor(a, b)
  {
    var c, d := 2 * a, 2 * b;
    assert c / 2 == a && d / 2 == b && (c + d) % 2 == 0;
    assert Xor(c, d) == 2 * Xor(a, b);
  }

  /** Halving the page frame number and the size commutes with taking the buddy. */
  lemma DoubleBuddy(b: Block)
    requires Aligned(b) && b.order > 0
    ensures b.pfn % 2 == 0 && Aligned(Block(b.pfn / 2, b.order - 1))
    ensures Buddy(b).pfn == 2 * Buddy(Block(b.pfn / 2, b.order - 1)).pfn
  {
    var k := Pow2(b.order - 1);
    HalveQuotient(b.pfn, k);
    assert Pow2(b.order) == 2 * k;
  }
}
