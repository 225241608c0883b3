/** Over whole runs the extent tree is a flat map from file bytes to device bytes. */
module ExtentRuns {
  import opened Extents
  import opened ExtentCuts
  import opened ExtentTrees
  import opened ExtentInsert
  import opened ExtentShrink
  import opened Options

  const EMPTY: Tree := Tree(LeafRoot([]), map[], 0)

  datatype Op = InsertOp(e: Extent, room: Option<nat>) | TruncateOp(size: nat) | RemoveOp(from: nat, length: nat)

  function Apply(t: Tree, op: Op): Tree
    requires Formed(t)
  {
    match op
    case InsertOp(e, room) => Insert(t, e, room).1
    case TruncateOp(size) => Truncate(t, size)
    case RemoveOp(from, length) => Remove(t, from, length)
  }

  /** What a caller can check before an operation. An insertion may be refused, or fail for want of room. */
  ghost predicate Allowed(t: Tree, op: Op)
    requires Formed(t)
  {
    match op
    case InsertOp(e, room) =>
      var outcome := Insert(t, e, room).0;
      outcome != Einval ==> Unmapped(t, e) && Fresh(t, room) && (outcome == Done ==> Fits(t, e))
    case TruncateOp(_) => true
    case RemoveOp(from, length) => length > 0 ==> TreeTakes(t, from, from + length)
  }

  // ---- the flat map ------------------------------------------------------------------------------

  /** What an operation does to the map from file bytes to device bytes. A failed split adds the bytes of
      the extent before `cut` and loses every byte from there to the next separator, if there is one. */
  datatype Effect =
    | Keeping
    | Adding(e: Extent)
    | Losing(e: Extent, cut: nat, next: Option<nat>)
    | Shrinking(size: nat)
    | Clearing(from: nat, end: nat)

  function EffectOf(t: Tree, op: Op): Effect
    requires Formed(t)
  {
    match op
    case InsertOp(e, room) =>
      var outcome := Insert(t, e, room).0;
      if outcome == Done then Adding(e)
      else if outcome == Einval || t.root.LeafRoot? then Keeping
      else
        var index := t.root.index;
        var c := Route(index, e.logical);
        var all := Place(LeafAt(t, c), e);
        Losing(e, all[|all| / 2].logical, if c + 1 < |index| then Some(index[c + 1].key) else None)
    case TruncateOp(size) => Shrinking(size)
    case RemoveOp(from, length) => Clearing(from, from + length)
  }

  function Flatly(f: Effect, b: Option<Byte>, x: nat): Option<Byte> {
    match f
    case Keeping => b
    case Adding(e) => OrElse(OneByte(e, x), b)
    case Losing(e, cut, next) =>
      if x < cut then OrElse(OneByte(e, x), b)
      else if next.Some? && next.value <= x then b else None
    case Shrinking(size) => if x < size then b else None
    case Clearing(from, end) => Hole(b, from, end, x)
  }

  lemma FailedSplitStep(t: Tree, e: Extent, room: Option<nat>, x: nat)
    requires Sound(t) && t.root.Branch? && Unmapped(t, e) && Fresh(t, room) && Insert(t, e, room).0 == Enospc
    ensures var op := InsertOp(e, room);
            Sound(Apply(t, op)) && TreeBytes(Apply(t, op), x) == Flatly(EffectOf(t, op), TreeBytes(t, x), x)
  {
    hide Bytes, Place, Route;
    var index := t.root.index;
    var c := Route(index, e.logical);
    InsertOutcome(t, e, room);
    FailedSplitKeeps(t, e, room);
    FailedSplitLoses(t, e, room, x);
    RouteIsLast(index, e.logical);
    RouteIsLast(index, x);
    KeptHalf(t, e, c);
  }

  lemma OneStep(t: Tree, op: Op, x: nat)
    requires Sound(t) && Allowed(t, op)
    ensures Sound(Apply(t, op))
    ensures TreeBytes(Apply(t, op), x) == Flatly(EffectOf(t, op), TreeBytes(t, x), x)
  {
    hide Bytes, Sound;
    SoundIsFormed(t);
    match op
    case InsertOp(e, room) =>
      InsertOutcome(t, e, room);
      if Insert(t, e, room).0 == Done {
        InsertGrowsIff(t, e, room);
      } else if Insert(t, e, room).0 == Enospc && t.root.Branch? {
        FailedSplitStep(t, e, room, x);
      }
    case TruncateOp(size) => TruncateRestricts(t, size);
    case RemoveOp(from, length) =>
      if length == 0 {
      } else if Blank(t) {
        BytesOne(Extent(0, 0, 0, 0, 0, 0), x);
        assert Bytes([], x) == None;
      } else {
        RemoveIsExactIff(t, from, length);
      }
  }

  ghost predicate IsRun(states: seq<Tree>, ops: seq<Op>) {
    && |states| == |ops| + 1 && states[0] == EMPTY
    && (forall i :: 0 <= i < |ops| ==> Formed(states[i]) && Allowed(states[i], ops[i]) && states[i + 1] == Apply(states[i], ops[i]))
  }

  /** The flat map after the first `n` operations, starting from nothing. */
  ghost function FlatMap(states: seq<Tree>, ops: seq<Op>, n: nat, x: nat): Option<Byte>
    requires IsRun(states, ops) && n <= |ops|
  {
    if n == 0 then None else Flatly(EffectOf(states[n - 1], ops[n - 1]), FlatMap(states, ops, n - 1, x), x)
  }

  /** Every run of allowed operations, refused and failed insertions among them, keeps the tree sound, and
      at every moment the search in the tree answers as the flat map. */
  lemma {:induction false} RunsAreFlat(states: seq<Tree>, ops: seq<Op>, n: nat, x: nat)
    requires IsRun(states, ops) && n <= |ops|
    ensures Sound(states[n]) && TreeBytes(states[n], x) == FlatMap(states, ops, n, x)
  {
    hide Bytes;
    if n == 0 {
      BytesOne(Extent(0, 0, 0, 0, 0, 0), x);
      assert Bytes([], x) == None;
    } else {
      RunsAreFlat(states, ops, n - 1, x);
      OneStep(states[n - 1], ops[n - 1], x);
    }
  }

  // ---- runs of any calls -------------------------------------------------------------------------

  /** Every child named is stored, and the index has its 19 entries at most. */
  ghost predicate Shallow(t: Tree) {
    Formed(t) && (t.root.Branch? ==> |t.root.index| <= MAX_INLINE_INDEX)
  }

  /** Any operation keeps that, in any such tree: sound or not, with any extent, succeeding or failing. */
  lemma OpStaysShallow(t: Tree, op: Op)
    requires Shallow(t)
    ensures Shallow(Apply(t, op))
    ensures t.root.Branch? ==> Apply(t, op).root.Branch?
  {
    hide Place, MergeAt, Route, Punched, Shortened;
    match op
    case InsertOp(e, room) =>
      if t.root.LeafRoot? {
        PlaceIsLonger(t.root.extents, e);
      } else {
        PlaceIsLonger(LeafFor(t, e.logical), e);
        EntriesStayStored(t, e, room);
      }
    case TruncateOp(size) =>
    case RemoveOp(from, length) =>
  }

  lemma EntriesStayStored(t: Tree, e: Extent, room: Option<nat>)
    requires Shallow(t) && t.root.Branch?
    ensures Shallow(Insert(t, e, room).1) && Insert(t, e, room).1.root.Branch?
  {
    hide Place, Route, WithEntry;
    PlaceIsLonger(LeafFor(t, e.logical), e);
    var index, n := t.root.index, Insert(t, e, room).1;
    var c := Route(index, e.logical);
    forall i | 0 <= i < |n.root.index|
      ensures n.root.index[i].child in n.nodes
    {
      assert i < |index| ==> index[i].child in t.nodes;
      assert i > 0 ==> index[i - 1].child in t.nodes;
    }
  }

  /** Over every run of any operations whatever, from an empty file: at most one level of index, with at
      most 19 children, all of them stored. */
  lemma {:induction false} RunsStayShallow(states: seq<Tree>, ops: seq<Op>, n: nat)
    requires |states| == |ops| + 1 && states[0] == EMPTY && n <= |ops|
    requires forall i :: 0 <= i < |ops| ==> Formed(states[i]) ==> states[i + 1] == Apply(states[i], ops[i])
    ensures Shallow(states[n])
  {
    if n > 0 {
      RunsStayShallow(states, ops, n - 1);
      OpStaysShallow(states[n - 1], ops[n - 1]);
    }
  }
}
