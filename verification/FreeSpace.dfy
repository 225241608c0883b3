/** The list of free device ranges: best fit, removal, and freeing with merges, as functions on the
    list, and the set of bytes the list stands for. */
module FreeSpace {
  datatype Range = Range(start: nat, length: nat)

  type FreeList = seq<Range>

  /** A node keeps and the scratch array of a merge holds this many ranges. */
  const MAX_FREE_ENTRIES: nat := 120

  const FS_MIN_ALLOC: nat := 512
  const TWO_64: nat := 0x1_0000_0000_0000_0000

  function End(r: Range): nat {
    r.start + r.length
  }

  predicate In(r: Range, x: nat) {
    r.start <= x < End(r)
  }

  /** Some entry of the list covers the byte. */
  predicate Free(list: FreeList, x: nat) {
    exists i :: 0 <= i < |list| && In(list[i], x)
  }

  function Total(list: FreeList): nat {
    if list == [] then 0 else Total(list[..|list| - 1]) + list[|list| - 1].length
  }

  /** Nonempty ranges in ascending order that neither overlap nor touch. */
  ghost predicate Normal(list: FreeList) {
    && (forall i :: 0 <= i < |list| ==> list[i].length > 0)
    && (forall i, j :: 0 <= i < j < |list| ==> End(list[i]) < list[j].start)
  }

  lemma FreeJoins(a: FreeList, b: FreeList, x: nat)
    ensures Free(a + b, x) <==> Free(a, x) || Free(b, x)
  {
    if Free(a, x) {
      var i :| 0 <= i < |a| && In(a[i], x);
      assert In((a + b)[i], x);
    }
    if Free(b, x) {
      var i :| 0 <= i < |b| && In(b[i], x);
      assert In((a + b)[|a| + i], x);
    }
  }

  lemma FreeOne(r: Range, x: nat)
    ensures Free([r], x) <==> In(r, x)
  {
    assert In(r, x) ==> In([r][0], x);
  }

  lemma {:induction false} TotalJoins(a: FreeList, b: FreeList)
    ensures Total(a + b) == Total(a) + Total(b)
    decreases |b|
  {
    if b == [] {
      assert a + b == a;
    } else {
      TotalJoins(a, b[..|b| - 1]);
      assert (a + b)[..|a + b| - 1] == a + b[..|b| - 1];
    }
  }

  // ---- freeing -------------------------------------------------------------------------------

  /** The merging loop of `free_internal` part of the way: the ranges written, the range to insert
      as merged so far, and whether it has been written. */
  datatype Scan = Scan(done: FreeList, pending: Range, inserted: bool)

  function Last(list: FreeList): Range
    requires list != []
  {
    list[|list| - 1]
  }

  function Longer(r: Range, more: nat): Range {
    r.(length := r.length + more)
  }

  /** One entry is visited. */
  function Visit(s: Scan, e: Range): Scan {
    if s.inserted then s.(done := s.done + [e])
    else if e.start >= End(s.pending) then
      if e.start == End(s.pending) then s.(pending := Longer(s.pending, e.length))
      else if s.done != [] && End(Last(s.done)) == s.pending.start then
        Scan(s.done[..|s.done| - 1] + [Longer(Last(s.done), s.pending.length)] + [e], s.pending, true)
      else Scan(s.done + [s.pending] + [e], s.pending, true)
    else if End(e) <= s.pending.start then
      if End(e) == s.pending.start then s.(pending := Range(e.start, s.pending.length + e.length))
      else s.(done := s.done + [e])
    else Scan(s.done + [s.pending] + [e], s.pending, true)
  }

  function Scanned(list: FreeList, r: Range, n: nat): Scan
    requires n <= |list|
  {
    if n == 0 then Scan([], r, false) else Visit(Scanned(list, r, n - 1), list[n - 1])
  }

  function Finish(s: Scan): FreeList {
    if s.inserted then s.done
    else if s.done != [] && End(Last(s.done)) == s.pending.start
    then s.done[..|s.done| - 1] + [Longer(Last(s.done), s.pending.length)]
    else s.done + [s.pending]
  }

  /** `free_internal` */
  function Freed(list: FreeList, r: Range): FreeList {
    if r.length == 0 then list else Finish(Scanned(list, r, |list|))
  }

  /** The bytes of the scan: written, or in the range still to be written. */
  predicate Held(s: Scan, x: nat) {
    Free(s.done, x) || (!s.inserted && In(s.pending, x))
  }

  lemma GrownLast(list: FreeList, more: nat, x: nat)
    requires list != []
    ensures Free(list[..|list| - 1] + [Longer(Last(list), more)], x) <==> Free(list, x) || In(Range(End(Last(list)), more), x)
  {
    hide Free;
    var front := list[..|list| - 1];
    assert list == front + [Last(list)];
    FreeJoins(front, [Last(list)], x);
    FreeJoins(front, [Longer(Last(list), more)], x);
    FreeOne(Last(list), x);
    FreeOne(Longer(Last(list), more), x);
  }

  lemma VisitHolds(s: Scan, e: Range, x: nat)
    ensures Held(Visit(s, e), x) <==> Held(s, x) || In(e, x)
  {
    hide Free;
    FreeOne(e, x);
    FreeOne(s.pending, x);
    FreeJoins(s.done, [e], x);
    FreeJoins(s.done, [s.pending], x);
    FreeJoins(s.done + [s.pending], [e], x);
    if s.done != [] {
      GrownLast(s.done, s.pending.length, x);
      FreeJoins(s.done[..|s.done| - 1] + [Longer(Last(s.done), s.pending.length)], [e], x);
    }
  }

  lemma {:induction false} ScannedHolds(list: FreeList, r: Range, n: nat, x: nat)
    requires n <= |list|
    ensures Held(Scanned(list, r, n), x) <==> Free(list[..n], x) || In(r, x)
  {
    hide Free;
    hide Visit;
    if n == 0 {
      NothingFree(x);
    } else {
      ScannedHolds(list, r, n - 1, x);
      VisitHolds(Scanned(list, r, n - 1), list[n - 1], x);
      assert list[..n] == list[..n - 1] + [list[n - 1]];
      FreeJoins(list[..n - 1], [list[n - 1]], x);
      FreeOne(list[n - 1], x);
    }
  }

  /** On any list whatever the lengths of the entries grow by exactly the length freed. */
  lemma FreeAddsTotal(list: FreeList, r: Range)
    ensures Total(Freed(list, r)) == Total(list) + r.length
  {
    hide Total;
    if r.length > 0 {
      var s := Scanned(list, r, |list|);
      ScannedTotal(list, r, |list|);
      assert list[..|list|] == list;
      if !s.inserted {
        TotalOne(s.pending);
        TotalJoins(s.done, [s.pending]);
        if s.done != [] {
          LongerTotal(s.done, s.pending.length);
        }
      }
    }
  }

  lemma TotalOne(r: Range)
    ensures Total([r]) == r.length && Total([]) == 0
  {
    assert [r][..0] == [];
  }

  lemma LongerTotal(list: FreeList, more: nat)
    requires list != []
    ensures Total(list[..|list| - 1] + [Longer(Last(list), more)]) == Total(list) + more
  {
    hide Total;
    var front := list[..|list| - 1];
    assert list == front + [Last(list)];
    TotalJoins(front, [Last(list)]);
    TotalJoins(front, [Longer(Last(list), more)]);
    TotalOne(Last(list));
    TotalOne(Longer(Last(list), more));
  }

  /** What the scan has written, and the range still to be written. */
  function ScanTotal(s: Scan): nat {
    Total(s.done) + if s.inserted then 0 else s.pending.length
  }

  lemma {:induction false} ScannedTotal(list: FreeList, r: Range, n: nat)
    requires n <= |list|
    ensures ScanTotal(Scanned(list, r, n)) == Total(list[..n]) + r.length
  {
    hide Visit, Total;
    if n == 0 {
      TotalOne(r);
      assert list[..0] == [];
    } else {
      ScannedTotal(list, r, n - 1);
      VisitTotal(Scanned(list, r, n - 1), list[n - 1]);
      assert list[..n] == list[..n - 1] + [list[n - 1]];
      TotalJoins(list[..n - 1], [list[n - 1]]);
      TotalOne(list[n - 1]);
    }
  }

  lemma VisitTotal(s: Scan, e: Range)
    ensures ScanTotal(Visit(s, e)) == ScanTotal(s) + e.length
  {
    hide Total;
    TotalOne(e);
    TotalOne(s.pending);
    TotalJoins(s.done, [e]);
    TotalJoins(s.done, [s.pending]);
    TotalJoins(s.done + [s.pending], [e]);
    if s.done != [] {
      LongerTotal(s.done, s.pending.length);
      TotalJoins(s.done[..|s.done| - 1] + [Longer(Last(s.done), s.pending.length)], [e]);
    }
  }

  /** Two entries that touch, as a list that is not in normal form may have, and a range freed right behind
      them: all three become one, and what follows stays. */
  lemma FreeJoinsPair(a: Range, b: Range, r: Range, rest: FreeList)
    requires a.length > 0 && b.length > 0 && r.length > 0 && End(a) == b.start && End(b) == r.start
    requires forall i :: 0 <= i < |rest| ==> rest[i].start > End(r)
    ensures Freed([a, b] + rest, r) == [Range(a.start, a.length + b.length + r.length)] + rest
  {
    var list := [a, b] + rest;
    var joint := Range(b.start, b.length + r.length);
    var whole := Range(a.start, a.length + b.length + r.length);
    var s0 := Scanned(list, r, 0);
    assert Scanned(list, r, 1) == Visit(s0, a) == Scan([a], r, false);
    assert Scanned(list, r, 2) == Visit(Scanned(list, r, 1), b) == Scan([a], joint, false);
    if rest == [] {
      assert list == [a, b];
    } else {
      assert list[2] == rest[0];
      assert Scanned(list, r, 3) == Scan([whole] + [rest[0]], joint, true);
      CopiesRest(list, r, 3);
      assert [whole] + [rest[0]] + list[3..] == [whole] + rest;
    }
  }

  /** Once the range is written, the rest of the list follows. */
  lemma {:induction false} CopiesRest(list: FreeList, r: Range, n: nat)
    requires n <= |list| && Scanned(list, r, n).inserted
    ensures Scanned(list, r, |list|).inserted && Scanned(list, r, |list|).done == Scanned(list, r, n).done + list[n..]
    decreases |list| - n
  {
    if n < |list| {
      CopiesRest(list, r, n + 1);
      assert list[n..] == [list[n]] + list[n + 1..];
    }
  }

  lemma NothingFree(x: nat)
    ensures !Free([], x)
  {
  }

  /** On any list whatever - sorted or not, with overlaps or without - freeing a range makes
      exactly its bytes free and loses none. */
  lemma FreeIsUnion(list: FreeList, r: Range, x: nat)
    ensures Free(Freed(list, r), x) <==> Free(list, x) || In(r, x)
  {
    hide Free;
    if r.length > 0 {
      var s := Scanned(list, r, |list|);
      ScannedHolds(list, r, |list|, x);
      assert list[..|list|] == list;
      FreeJoins(s.done, [s.pending], x);
      FreeOne(s.pending, x);
      if s.done != [] {
        GrownLast(s.done, s.pending.length, x);
      }
    }
  }

  // ---- freeing on a normal list ----------------------------------------------------------------

  /** No byte of the range is free. */
  ghost predicate Disjoint(list: FreeList, r: Range) {
    forall i :: 0 <= i < |list| ==> End(list[i]) <= r.start || End(r) <= list[i].start
  }

  /** How many leading entries lie before the range. */
  function Pos(list: FreeList, r: Range): (k: nat)
    ensures k <= |list|
    ensures forall i :: 0 <= i < k ==> list[i].start < r.start
    ensures k < |list| ==> list[k].start >= r.start
  {
    if list == [] || list[0].start >= r.start then 0 else 1 + Pos(list[1..], r)
  }

  predicate TouchesLeft(list: FreeList, r: Range) {
    var k := Pos(list, r);
    k > 0 && End(list[k - 1]) == r.start
  }

  predicate TouchesRight(list: FreeList, r: Range) {
    var k := Pos(list, r);
    k < |list| && list[k].start == End(r)
  }

  /** The range joined with the neighbours it touches. */
  function Joint(list: FreeList, r: Range): Range {
    var k := Pos(list, r);
    var left := if TouchesLeft(list, r) then Range(list[k - 1].start, list[k - 1].length + r.length) else r;
    if TouchesRight(list, r) then Longer(left, list[k].length) else left
  }

  function Before(list: FreeList, r: Range): nat {
    if TouchesLeft(list, r) then Pos(list, r) - 1 else Pos(list, r)
  }

  function After(list: FreeList, r: Range): (a: nat)
    ensures a <= |list|
  {
    if TouchesRight(list, r) then Pos(list, r) + 1 else Pos(list, r)
  }

  /** The list with the neighbours replaced by the joint range. */
  function Joined(list: FreeList, r: Range): FreeList {
    list[..Before(list, r)] + [Joint(list, r)] + list[After(list, r)..]
  }

  /** Where the neighbours of a range lie. */
  lemma Around(list: FreeList, r: Range)
    requires Normal(list) && Disjoint(list, r) && r.length > 0
    ensures var k := Pos(list, r);
            && (forall i :: 0 <= i < k ==> End(list[i]) <= r.start)
            && (forall i :: 0 <= i < k - 1 ==> End(list[i]) < r.start && End(list[i]) < list[k - 1].start)
            && (forall i :: k <= i < |list| ==> End(r) <= list[i].start)
            && (forall i :: k < i < |list| ==> End(list[k]) < list[i].start && End(r) < list[i].start)
  {
    hide Pos;
    var k := Pos(list, r);
    forall i | 0 <= i < k
      ensures End(list[i]) <= r.start
    {
      assert list[i].start < r.start;
    }
    forall i | k <= i < |list|
      ensures End(r) <= list[i].start
    {
      assert i > k ==> list[k].start < list[i].start;
    }
    forall i | 0 <= i < k - 1
      ensures End(list[i]) < r.start && End(list[i]) < list[k - 1].start
    {
      assert End(list[i]) < list[k - 1].start;
      assert list[k - 1].start < r.start;
    }
  }

  lemma VisitBefore(list: FreeList, r: Range, n: nat)
    requires r.length > 0 && 0 < n <= |list| && End(list[n - 1]) <= r.start
    ensures Visit(Scan(list[..n - 1], r, false), list[n - 1])
         == if End(list[n - 1]) == r.start then Scan(list[..n - 1], Range(list[n - 1].start, list[n - 1].length + r.length), false)
            else Scan(list[..n], r, false)
  {
    assert list[..n - 1] + [list[n - 1]] == list[..n];
  }

  lemma {:induction false} ScannedBefore(list: FreeList, r: Range, n: nat)
    requires Normal(list) && Disjoint(list, r) && r.length > 0 && n <= Pos(list, r)
    ensures Scanned(list, r, n)
         == if n == Pos(list, r) && TouchesLeft(list, r)
            then Scan(list[..n - 1], Range(list[n - 1].start, list[n - 1].length + r.length), false)
            else Scan(list[..n], r, false)
  {
    hide Pos;
    hide Normal;
    hide Disjoint;
    hide Visit;
    if n > 0 {
      ScannedBefore(list, r, n - 1);
      Around(list, r);
      VisitBefore(list, r, n);
    }
  }

  /** The entries left of the joint range end before it, those right of it start behind it. */
  lemma JointStandsAlone(list: FreeList, r: Range)
    requires Normal(list) && Disjoint(list, r) && r.length > 0
    ensures var a, b, j := After(list, r), Before(list, r), Joint(list, r);
            && b <= a <= |list| && j.length > 0
            && (forall i :: 0 <= i < b ==> End(list[i]) < j.start)
            && (forall i :: a <= i < |list| ==> End(j) < list[i].start)
  {
    hide Pos;
    hide Normal;
    hide Disjoint;
    Around(list, r);
    assert forall i :: 0 <= i < |list| ==> list[i].length > 0 by {
      NonEmpty(list);
    }
  }

  lemma NonEmpty(list: FreeList)
    requires Normal(list)
    ensures forall i :: 0 <= i < |list| ==> list[i].length > 0
  {
  }

  lemma {:induction false} ScannedAfter(list: FreeList, r: Range, n: nat)
    requires Normal(list) && Disjoint(list, r) && r.length > 0 && After(list, r) <= n <= |list|
    ensures Scanned(list, r, n)
         == if n == After(list, r) then Scan(list[..Before(list, r)], Joint(list, r), false)
            else Scan(list[..Before(list, r)] + [Joint(list, r)] + list[After(list, r)..n], Joint(list, r), true)
  {
    if n == After(list, r) {
      ScannedToJoint(list, r);
    } else {
      ScannedAfter(list, r, n - 1);
      VisitBehind(list, r, n);
    }
  }

  lemma ScannedToJoint(list: FreeList, r: Range)
    requires Normal(list) && Disjoint(list, r) && r.length > 0
    ensures Scanned(list, r, After(list, r)) == Scan(list[..Before(list, r)], Joint(list, r), false)
  {
    hide Pos;
    hide Normal;
    hide Disjoint;
    var k := Pos(list, r);
    Around(list, r);
    ScannedBefore(list, r, k);
    if TouchesRight(list, r) {
      var s := Scanned(list, r, k);
      assert End(s.pending) == End(r) && !s.inserted;
      assert Visit(s, list[k]) == s.(pending := Longer(s.pending, list[k].length));
    }
  }

  lemma VisitBehind(list: FreeList, r: Range, n: nat)
    requires Normal(list) && Disjoint(list, r) && r.length > 0 && After(list, r) < n <= |list|
    ensures var a, b, j := After(list, r), Before(list, r), Joint(list, r);
            var next := Scan(list[..b] + [j] + list[a..n], j, true);
            && (n - 1 == a ==> Visit(Scan(list[..b], j, false), list[n - 1]) == next)
            && (n - 1 > a ==> Visit(Scan(list[..b] + [j] + list[a..n - 1], j, true), list[n - 1]) == next)
  {
    hide Pos;
    hide Before;
    hide After;
    hide Joint;
    hide Normal;
    hide Disjoint;
    JointStandsAlone(list, r);
    var a, b, j := After(list, r), Before(list, r), Joint(list, r);
    assert b > 0 ==> Last(list[..b]) == list[b - 1];
    assert list[a..n] == list[a..n - 1] + [list[n - 1]];
  }

  lemma FreedIsJoined(list: FreeList, r: Range)
    requires Normal(list) && Disjoint(list, r) && r.length > 0
    ensures Freed(list, r) == Joined(list, r)
  {
    hide Pos;
    hide Before;
    hide After;
    hide Joint;
    hide Normal;
    hide Disjoint;
    JointStandsAlone(list, r);
    var a, b := After(list, r), Before(list, r);
    ScannedAfter(list, r, |list|);
    assert b > 0 ==> Last(list[..b]) == list[b - 1];
    assert list[a..|list|] == list[a..];
    assert a == |list| ==> list[a..] == [];
  }

  lemma NormalJoin(a: FreeList, b: FreeList)
    requires Normal(a) && Normal(b) && forall i, j :: 0 <= i < |a| && 0 <= j < |b| ==> End(a[i]) < b[j].start
    ensures Normal(a + b)
  {
    var c := a + b;
    forall i, j | 0 <= i < j < |c|
      ensures End(c[i]) < c[j].start
    {
      assert c[i] == if i < |a| then a[i] else b[i - |a|];
      assert c[j] == if j < |a| then a[j] else b[j - |a|];
    }
  }

  lemma JoinedIsNormal(list: FreeList, r: Range)
    requires Normal(list) && Disjoint(list, r) && r.length > 0
    ensures Normal(Joined(list, r))
  {
    hide Pos;
    hide Before;
    hide After;
    hide Joint;
    JointStandsAlone(list, r);
    var a, b, j := After(list, r), Before(list, r), Joint(list, r);
    NormalJoin([j], list[a..]);
    NormalJoin(list[..b], [j] + list[a..]);
    assert Joined(list, r) == list[..b] + ([j] + list[a..]);
  }

  lemma TotalOfThree(a: FreeList, b: FreeList, c: FreeList)
    ensures Total(a + b + c) == Total(a) + Total(b) + Total(c)
  {
    TotalJoins(a + b, c);
    TotalJoins(a, b);
  }

  /** The joint range is as long as the range and the neighbours it replaces. */
  lemma JointLength(list: FreeList, r: Range)
    ensures Before(list, r) <= After(list, r)
    ensures Joint(list, r).length == Total(list[Before(list, r)..After(list, r)]) + r.length
  {
    hide Pos;
    hide Total;
    var a, b := After(list, r), Before(list, r);
    TotalSmall(r, r);
    if a - b == 1 {
      TotalSmall(list[b], list[b]);
      assert list[b..a] == [list[b]];
    } else if a - b == 2 {
      TotalSmall(list[b], list[b + 1]);
      assert list[b..a] == [list[b], list[b + 1]];
    } else {
      assert list[b..a] == [];
    }
  }

  lemma JoinedTotal(list: FreeList, r: Range)
    ensures Total(Joined(list, r)) == Total(list) + r.length
  {
    hide Before;
    hide After;
    hide Joint;
    hide Total;
    JointLength(list, r);
    var a, b, j := After(list, r), Before(list, r), Joint(list, r);
    assert list == list[..b] + list[b..a] + list[a..];
    TotalOfThree(list[..b], list[b..a], list[a..]);
    TotalOfThree(list[..b], [j], list[a..]);
    TotalSmall(j, j);
  }

  lemma TotalSmall(p: Range, q: Range)
    ensures Total([]) == 0 && Total([p]) == p.length && Total([p, q]) == p.length + q.length
  {
    TotalJoins([p], [q]);
    assert [p] + [q] == [p, q];
  }

  /** On a normal list, freeing a range of which nothing is free keeps the list normal - merged with
      every neighbour it touches - and raises the number of free bytes by its length. */
  lemma FreeKeepsNormal(list: FreeList, r: Range)
    requires Normal(list) && Disjoint(list, r) && r.length > 0
    ensures Normal(Freed(list, r)) && Total(Freed(list, r)) == Total(list) + r.length
    ensures |Freed(list, r)| == |list| + 1 - (if TouchesLeft(list, r) then 1 else 0) - (if TouchesRight(list, r) then 1 else 0)
  {
    hide Pos;
    FreedIsJoined(list, r);
    JoinedIsNormal(list, r);
    JoinedTotal(list, r);
  }
}
