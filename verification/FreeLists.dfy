/** The intrusive, circular, doubly linked free lists of the page allocator.
    Every list has a sentinel; the nodes of all lists share one link store. */
module FreeLists {
  /** A sentinel of one zone and order, or the list node kept for a page frame. */
  datatype Node = Sentinel(zone: nat, order: nat) | Page(pfn: nat)

  datatype Links = Links(next: map<Node, Node>, prev: map<Node, Node>) {
    predicate Has(n: Node) {
      n in next && n in prev
    }
  }

  /** `FreeList::init`: a sentinel linked to itself. */
  function InitList(l: Links, head: Node): Links {
    Links(l.next[head := head], l.prev[head := head])
  }

  /** `FreeList::push`: the four link writes, in order. */
  function Push(l: Links, head: Node, node: Node): Links
    requires head in l.next && head != node
    requires l.next[head] in l.prev
  {
    var l1 := l.(next := l.next[node := l.next[head]]);
    var l2 := l1.(prev := l1.prev[node := head]);
    var l3 := l2.(prev := l2.prev[l2.next[head] := node]);
    l3.(next := l3.next[head := node])
  }

  /** `FreeList::remove`: splice a node out through its own two links. */
  function Unlink(l: Links, node: Node): Links
    requires l.Has(node) && l.prev[node] in l.next && l.next[node] in l.prev
  {
    var l1 := l.(next := l.next[l.prev[node] := l.next[node]]);
    assert l.prev[node] == node ==> l1.next[node] == l.next[node];
    l1.(prev := l1.prev[l1.next[node] := l.prev[node]])
  }

  /** Position `i` of the ring that starts and ends at the sentinel. */
  function RingAt(head: Node, s: seq<nat>, i: nat): Node
    requires i <= |s| + 1
  {
    if i == 0 || i == |s| + 1 then head else Page(s[i - 1])
  }

  predicate NoDuplicates(s: seq<nat>) {
    forall i, j :: 0 <= i < j < |s| ==> s[i] != s[j]
  }

  /** The links reachable from `head` spell exactly the page frames `s`, both ways round. */
  ghost predicate Spells(l: Links, head: Node, s: seq<nat>) {
    && head.Sentinel?
    && NoDuplicates(s)
    && (forall i :: 0 <= i <= |s| ==> LinkedAt(l, head, s, i))
  }

  /** Ring positions `i` and `i + 1` point at each other. */
  ghost predicate LinkedAt(l: Links, head: Node, s: seq<nat>, i: nat)
    requires i <= |s|
  {
    var a, b := RingAt(head, s, i), RingAt(head, s, i + 1);
    l.Has(a) && l.Has(b) && l.next[a] == b && l.prev[b] == a
  }

  function Without(s: seq<nat>, k: nat): (r: seq<nat>)
    requires k < |s|
    ensures |r| == |s| - 1
  {
    s[..k] + s[k + 1..]
  }

  lemma InitSpells(l: Links, head: Node)
    requires head.Sentinel?
    ensures Spells(InitList(l, head), head, [])
  {
  }

  /** A push puts the page frame in front. */
  lemma PushSpells(l: Links, head: Node, s: seq<nat>, p: nat)
    requires Spells(l, head, s) && p !in s
    ensures l.Has(head) && l.next[head] in l.prev
    ensures Spells(Push(l, head, Page(p)), head, [p] + s)
  {
    assert LinkedAt(l, head, s, 0);
    var t := [p] + s;
    var m := Push(l, head, Page(p));
    assert RingAt(head, t, 0) == head && RingAt(head, t, 1) == Page(p);
    assert forall i :: 2 <= i <= |t| + 1 ==> RingAt(head, t, i) == RingAt(head, s, i - 1);
    forall i | 0 <= i <= |t|
      ensures LinkedAt(m, head, t, i)
    {
      if i >= 2 {
        var n := RingAt(head, s, i - 1);
        assert n != head && n != Page(p);
        assert LinkedAt(l, head, s, i - 1);
        if i <= |s| {
          assert RingAt(head, s, i) == RingAt(head, s, 1) ==> i == 1;
        } else {
          assert RingAt(head, s, i) == head;
        }
      }
    }
  }

  /** Splicing out position `k` leaves the rest in order. */
  lemma UnlinkSpells(l: Links, head: Node, s: seq<nat>, k: nat)
    requires Spells(l, head, s) && k < |s|
    ensures l.Has(Page(s[k])) && l.prev[Page(s[k])] in l.next && l.next[Page(s[k])] in l.prev
    ensures Spells(Unlink(l, Page(s[k])), head, Without(s, k))
  {
    var n := Page(s[k]);
    var t := Without(s, k);
    assert LinkedAt(l, head, s, k) && LinkedAt(l, head, s, k + 1);
    var m := Unlink(l, n);
    forall i | 0 <= i <= |t| + 1
      ensures RingAt(head, t, i) == if i <= k then RingAt(head, s, i) else RingAt(head, s, i + 1)
    {
    }
    forall i | 0 <= i <= |t|
      ensures LinkedAt(m, head, t, i)
    {
      var j := if i <= k then i else i + 1;
      assert LinkedAt(l, head, s, j);
      assert j != k ==> RingAt(head, s, j) != RingAt(head, s, k);
      assert j + 1 <= |s| && j + 1 != k + 2 ==> RingAt(head, s, j + 1) != RingAt(head, s, k + 2);
      assert j + 1 == |s| + 1 && k + 2 <= |s| ==> RingAt(head, s, j + 1) != RingAt(head, s, k + 2);
    }
  }

  /** Two lists that share no node: neither operation on one is seen by the other. */
  lemma PushFrame(l: Links, head: Node, s: seq<nat>, p: nat, other: Node, t: seq<nat>)
    requires Spells(l, head, s) && Spells(l, other, t) && head != other
    requires p !in s && p !in t && forall x :: x in s ==> x !in t
    ensures l.Has(head) && l.next[head] in l.prev
    ensures Spells(Push(l, head, Page(p)), other, t)
  {
    assert LinkedAt(l, head, s, 0);
    Disjoint(head, s, other, t, 1);
    Disjoint(head, s, other, t, 0);
    var m := Push(l, head, Page(p));
    forall i | 0 <= i <= |t|
      ensures LinkedAt(m, other, t, i)
    {
      assert LinkedAt(l, other, t, i);
    }
  }

  lemma UnlinkFrame(l: Links, head: Node, s: seq<nat>, k: nat, other: Node, t: seq<nat>)
    requires Spells(l, head, s) && Spells(l, other, t) && head != other && k < |s|
    requires forall x :: x in s ==> x !in t
    ensures l.Has(Page(s[k])) && l.prev[Page(s[k])] in l.next && l.next[Page(s[k])] in l.prev
    ensures Spells(Unlink(l, Page(s[k])), other, t)
  {
    UnlinkSpells(l, head, s, k);
    assert LinkedAt(l, head, s, k) && LinkedAt(l, head, s, k + 1);
    Disjoint(head, s, other, t, k);
    Disjoint(head, s, other, t, k + 2);
    var m := Unlink(l, Page(s[k]));
    forall i | 0 <= i <= |t|
      ensures LinkedAt(m, other, t, i)
    {
      assert LinkedAt(l, other, t, i);
    }
  }

  lemma Disjoint(head: Node, s: seq<nat>, other: Node, t: seq<nat>, i: nat)
    requires head != other && head.Sentinel? && other.Sentinel? && i <= |s| + 1
    requires forall x :: x in s ==> x !in t
    ensures forall j :: 0 <= j <= |t| + 1 ==> RingAt(other, t, j) != RingAt(head, s, i)
  {
    assert 1 <= i <= |s| ==> s[i - 1] in s;
  }
}
