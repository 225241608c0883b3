/** A leaf of the extent tree as a sequence of extents, the byte map it stands for, and what
    insertion, merging, truncation and hole punching do to that map. */
module Extents {
  import opened Options

  datatype Extent = Extent(logical: nat, length: nat, physical: nat, physicalLength: nat, compression: nat, flags: nat)

  /** What a lookup answers: the rest of an extent from one byte on. */
  datatype Mapping = Mapping(logical: nat, length: nat, physical: nat, physicalLength: nat, compression: nat)

  /** Where one byte of the file is kept. */
  datatype Byte = Byte(physical: nat, compression: nat)

  type Leaf = seq<Extent>

  function Minus(a: nat, b: nat): nat {
    if a >= b then a - b else 0
  }

  function End(e: Extent): nat {
    e.logical + e.length
  }

  predicate Covers(e: Extent, x: nat) {
    e.logical <= x < End(e)
  }

  function MappingAt(e: Extent, x: nat): Mapping
    requires Covers(e, x)
  {
    var delta := x - e.logical;
    Mapping(x, e.length - delta, e.physical + delta, Minus(e.physicalLength, delta), e.compression)
  }

  // ---- searching -----------------------------------------------------------------------------

  /** The first extent that covers a byte, or the length of the leaf. */
  function Find(es: Leaf, x: nat): (i: nat)
    ensures i <= |es|
    ensures i < |es| ==> Covers(es[i], x)
    ensures forall k :: 0 <= k < i ==> !Covers(es[k], x)
  {
    if es == [] || Covers(es[0], x) then 0 else 1 + Find(es[1..], x)
  }

  function LookupIn(es: Leaf, x: nat): Option<Mapping> {
    var i := Find(es, x);
    if i < |es| then Some(MappingAt(es[i], x)) else None
  }

  /** The byte map of a leaf. */
  function Bytes(es: Leaf, x: nat): Option<Byte> {
    match LookupIn(es, x)
    case None => None
    case Some(m) => Some(Byte(m.physical, m.compression))
  }

  function OneByte(e: Extent, x: nat): Option<Byte> {
    if Covers(e, x) then Some(Byte(e.physical + (x - e.logical), e.compression)) else None
  }

  /** The left map where it is defined, the right one elsewhere. */
  function OrElse<T>(a: Option<T>, b: Option<T>): Option<T> {
    if a.Some? then a else b
  }

  lemma FirstIs(es: Leaf, x: nat, i: nat)
    requires i <= |es| && (i < |es| ==> Covers(es[i], x)) && forall k :: 0 <= k < i ==> !Covers(es[k], x)
    ensures Find(es, x) == i
  {
    hide Find;
    hide Covers;
  }

  lemma FindJoins(a: Leaf, b: Leaf, x: nat)
    ensures Find(a + b, x) == if Find(a, x) < |a| then Find(a, x) else |a| + Find(b, x)
  {
    hide Find;
    hide Covers;
    var i, j := Find(a, x), Find(b, x);
    var k := if i < |a| then i else |a| + j;
    forall m | 0 <= m < k
      ensures !Covers((a + b)[m], x)
    {
      assert m >= |a| ==> (a + b)[m] == b[m - |a|];
    }
    FirstIs(a + b, x, k);
  }

  lemma LookupJoins(a: Leaf, b: Leaf, x: nat)
    ensures LookupIn(a + b, x) == OrElse(LookupIn(a, x), LookupIn(b, x))
  {
    FindJoins(a, b, x);
  }

  lemma BytesJoin(a: Leaf, b: Leaf, x: nat)
    ensures Bytes(a + b, x) == OrElse(Bytes(a, x), Bytes(b, x))
  {
    hide Find;
    LookupJoins(a, b, x);
  }

  lemma BytesOne(e: Extent, x: nat)
    ensures Bytes([e], x) == OneByte(e, x)
    ensures Bytes([], x) == None
  {
  }

  /** Whoever covers a byte decides it, when nobody before does. */
  lemma BytesAt(es: Leaf, x: nat, i: nat)
    requires i <= |es| && (i < |es| ==> Covers(es[i], x)) && forall k :: 0 <= k < i ==> !Covers(es[k], x)
    ensures Bytes(es, x) == if i < |es| then OneByte(es[i], x) else None
  {
    FirstIs(es, x, i);
  }

  // ---- order -----------------------------------------------------------------------------------

  /** Ascending, disjoint, nonempty extents. */
  ghost predicate Ordered(es: Leaf) {
    && (forall i :: 0 <= i < |es| ==> es[i].length > 0)
    && (forall i, j :: 0 <= i < j < |es| ==> End(es[i]) <= es[j].logical)
  }

  /** The physical length matches the logical one, as for data stored uncompressed. */
  predicate Flat(es: Leaf) {
    forall i :: 0 <= i < |es| ==> es[i].physicalLength == es[i].length
  }

  /** No byte of the extent is mapped yet. */
  ghost predicate Apart(es: Leaf, e: Extent) {
    forall i :: 0 <= i < |es| ==> End(es[i]) <= e.logical || End(e) <= es[i].logical
  }

  ghost predicate Above(es: Leaf, low: nat) {
    forall i :: 0 <= i < |es| ==> low <= es[i].logical
  }

  ghost predicate Below(es: Leaf, high: nat) {
    forall i :: 0 <= i < |es| ==> End(es[i]) <= high
  }

  ghost predicate AllBelow(a: Leaf, b: Leaf) {
    forall i, j :: 0 <= i < |a| && 0 <= j < |b| ==> End(a[i]) <= b[j].logical
  }

  lemma OrderedJoin(a: Leaf, b: Leaf)
    requires Ordered(a) && Ordered(b) && AllBelow(a, b)
    ensures Ordered(a + b)
  {
    var c := a + b;
    forall i, j | 0 <= i < j < |c|
      ensures End(c[i]) <= c[j].logical
    {
      assert c[i] == if i < |a| then a[i] else b[i - |a|];
      assert c[j] == if j < |a| then a[j] else b[j - |a|];
    }
  }

  // ---- ordered insertion -------------------------------------------------------------------------

  /** `find_insert_pos`: the first extent that starts later, or the length of the leaf. */
  function InsertPos(es: Leaf, logical: nat): (i: nat)
    ensures i <= |es|
    ensures i < |es| ==> es[i].logical > logical
    ensures forall k :: 0 <= k < i ==> es[k].logical <= logical
  {
    if es == [] || es[0].logical > logical then 0 else 1 + InsertPos(es[1..], logical)
  }

  function Place(es: Leaf, e: Extent): Leaf {
    var i := InsertPos(es, e.logical);
    es[..i] + [e] + es[i..]
  }

  lemma PlaceIsLonger(es: Leaf, e: Extent)
    ensures |Place(es, e)| == |es| + 1
  {
  }

  lemma PosIs(es: Leaf, logical: nat, i: nat)
    requires i <= |es| && (i < |es| ==> es[i].logical > logical) && forall k :: 0 <= k < i ==> es[k].logical <= logical
    ensures InsertPos(es, logical) == i
  {
    hide InsertPos;
  }

  lemma PlaceIsOrdered(es: Leaf, e: Extent)
    requires Ordered(es) && e.length > 0 && Apart(es, e)
    ensures Ordered(Place(es, e))
  {
    hide InsertPos;
    var i := InsertPos(es, e.logical);
    OrderedJoin([e], es[i..]);
    OrderedJoin(es[..i], [e] + es[i..]);
    assert Place(es, e) == es[..i] + ([e] + es[i..]);
  }

  /** In any leaf, mapped or not: extents that start no later hide the new one, which hides the rest. */
  lemma PlaceBytes(es: Leaf, e: Extent, x: nat)
    ensures var i := InsertPos(es, e.logical);
            Bytes(Place(es, e), x) == OrElse(Bytes(es[..i], x), OrElse(OneByte(e, x), Bytes(es[i..], x)))
  {
    hide InsertPos;
    hide Bytes;
    var i := InsertPos(es, e.logical);
    BytesJoin(es[..i] + [e], es[i..], x);
    BytesJoin(es[..i], [e], x);
    BytesOne(e, x);
  }

  /** Ordered insertion adds exactly the bytes of the new extent. */
  lemma PlaceAddsBytes(es: Leaf, e: Extent, x: nat)
    requires Apart(es, e)
    ensures Bytes(Place(es, e), x) == OrElse(OneByte(e, x), Bytes(es, x))
  {
    hide InsertPos;
    hide Bytes;
    var i := InsertPos(es, e.logical);
    assert es == es[..i] + es[i..];
    BytesJoin(es[..i], es[i..], x);
    PlaceBytes(es, e, x);
    if Covers(e, x) {
      NotCovered(es[..i], e, x);
    }
  }

  lemma NotCovered(es: Leaf, e: Extent, x: nat)
    requires Apart(es, e) && Covers(e, x)
    ensures Bytes(es, x) == None
  {
    BytesAt(es, x, |es|);
  }

  // ---- merging on the left -----------------------------------------------------------------------

  predicate Extends(was: Extent, e: Extent) {
    && End(was) == e.logical && was.physical + was.physicalLength == e.physical
    && was.compression == e.compression
  }

  /** The first extent the new one continues, or the length of the leaf. */
  function MergeAt(es: Leaf, e: Extent): (i: nat)
    ensures i <= |es|
    ensures i < |es| ==> Extends(es[i], e)
    ensures forall k :: 0 <= k < i ==> !Extends(es[k], e)
  {
    if es == [] || Extends(es[0], e) then 0 else 1 + MergeAt(es[1..], e)
  }

  lemma MergeAtIs(es: Leaf, e: Extent, i: nat)
    requires i <= |es| && (i < |es| ==> Extends(es[i], e)) && forall k :: 0 <= k < i ==> !Extends(es[k], e)
    ensures MergeAt(es, e) == i
  {
    hide MergeAt;
  }

  function Merged(was: Extent, e: Extent): Extent {
    Extent(was.logical, was.length + e.length, was.physical, was.physicalLength + e.physicalLength, was.compression, 0)
  }

  lemma MergeIsOrdered(es: Leaf, e: Extent, i: nat)
    requires Ordered(es) && e.length > 0 && Apart(es, e) && i < |es| && Extends(es[i], e)
    ensures Ordered(es[i := Merged(es[i], e)])
  {
  }

  /** Merging adds exactly the bytes of the new extent, and nothing else, just when the extent it
      continues has equal physical and logical length. */
  lemma MergeAddsBytesIff(es: Leaf, e: Extent, i: nat)
    requires Ordered(es) && e.length > 0 && Apart(es, e) && i < |es| && Extends(es[i], e)
    ensures (forall x: nat :: Bytes(es[i := Merged(es[i], e)], x) == OrElse(OneByte(e, x), Bytes(es, x)))
       <==> es[i].physicalLength == es[i].length
  {
    hide Bytes;
    var m := Merged(es[i], e);
    var now := es[i := m];
    forall x: nat
      ensures Bytes(now, x) == if Covers(e, x) then OneByte(m, x) else Bytes(es, x)
    {
      MergedByte(es, e, i, x);
    }
    assert Covers(e, e.logical);
    assert Bytes(now, e.logical) == Some(Byte(es[i].physical + es[i].length, e.compression));
    assert OrElse(OneByte(e, e.logical), Bytes(es, e.logical)) == Some(Byte(e.physical, e.compression));
  }

  lemma MergedByte(es: Leaf, e: Extent, i: nat, x: nat)
    requires Ordered(es) && e.length > 0 && Apart(es, e) && i < |es| && Extends(es[i], e)
    ensures Bytes(es[i := Merged(es[i], e)], x) == if Covers(e, x) then OneByte(Merged(es[i], e), x) else Bytes(es, x)
  {
    hide Bytes;
    var m := Merged(es[i], e);
    assert es == es[..i] + [es[i]] + es[i + 1..];
    assert es[i := m] == es[..i] + [m] + es[i + 1..];
    BytesJoin(es[..i] + [es[i]], es[i + 1..], x);
    BytesJoin(es[..i], [es[i]], x);
    BytesJoin(es[..i] + [m], es[i + 1..], x);
    BytesJoin(es[..i], [m], x);
    BytesOne(es[i], x);
    BytesOne(m, x);
    if Covers(e, x) {
      NotCovered(es[..i], e, x);
    }
  }
}
