/** The buddy allocator itself: block_tree and the two counters, changed in place. */
module BuddyAllocator {
  import opened Powers
  import opened BuddyTree
  import opened BuddySummaries
  import opened BuddySearch

  /** What get_level computes: the least level whose block, with one extra 2^level of slack, holds the size. */
  ghost predicate IsLevelFor(size: nat, level: nat) {
    && size <= 257 * Pow2(level)
    && (level > 0 ==> size > 257 * Pow2(level - 1))
  }

  /** x is the leftmost node of the level whose stretch of the heap meets no live block. */
  ghost predicate IsFirstVacant(top: nat, live: set<nat>, level: nat, x: nat)
    requires Antichain(top, live)
  {
    && x < NodeCount(top) && Level(top, x) == level && Vacant(top, live, x)
    && forall y: nat :: y < x && Level(top, y) == level ==> !Vacant(top, live, y)
  }

  /** The tree after the only block, the whole heap, has been taken for its left half: the root still
      counts as used, and so does all of the right half, but neither counts as allocated any more. The
      unsigned counter of node 1 has wrapped below 0. */
  ghost predicate HalfReleased(tree: seq<Node>) {
    forall i: nat :: i < |tree| ==> tree[i] == Node(!Under(1, i), if i == 1 then -1 else 0)
  }

  ghost predicate LevelFull(top: nat, live: set<nat>, level: nat)
    requires Antichain(top, live)
  {
    forall y: nat :: y < NodeCount(top) && Level(top, y) == level ==> !Vacant(top, live, y)
  }

  class Buddy {
    const top: nat
    const heapStart: nat
    const blockTree: array<Node>
    var usedMem: int
    var memChunks: int
    ghost var live: set<nat>

    ghost predicate Valid()
      reads this, blockTree
    {
      TreeOk() && usedMem == UnitsUnder(top, live, 0) * MIN_BLOCK
    }

    /** All but the memory counter. */
    ghost predicate TreeOk()
      reads this, blockTree
    {
      && heapStart > 0 && blockTree.Length == NodeCount(top)
      && Antichain(top, live)
      && Agrees(blockTree[..], live)
      && memChunks == |live|
    }

    ghost function Address(x: nat): nat
      requires x < NodeCount(top)
    {
      heapStart + Start(top, x) * MIN_BLOCK
    }

    /** The state mm_init leaves when the region is large enough. */
    constructor (top: nat, heapStart: nat)
      requires heapStart > 0
      ensures Valid() && fresh(blockTree)
      ensures this.top == top && this.heapStart == heapStart && live == {}
    {
      this.top, this.heapStart := top, heapStart;
      blockTree := new Node[NodeCount(top)](_ => Node(false, 0));
      usedMem, memChunks, live := 0, 0, {};
      new;
      UnitsOfNothing(top, 0);
      assert forall i: nat :: i < blockTree.Length ==> LiveUnder({}, i) == {};
    }

    method GetLevel(size: nat) returns (level: nat)
      requires size > 0
      ensures IsLevelFor(size, level)
    {
      var s := size - 1;
      level := 0;
      while s > MIN_BLOCK
        invariant Shl(s, level) <= size - 1 < Shl(s + 1, level)
        invariant level > 0 ==> size > 257 * Pow2(level - 1)
      {
        ShlStaysAbove(s, level);
        ShlHalf(s, level);
        s := s / 2;
        level := level + 1;
      }
      ShlOrder(s + 1, 257, level);
      ShlIsProduct(257, level);
    }

    method GetFirstFreeIndex(level: nat) returns (index: int)
      requires Valid() && level <= top
      ensures index >= 0 ==> IsFirstVacant(top, live, level, index)
      ensures index < 0 ==> index == -1 && LevelFull(top, live, level)
    {
      index := FirstIndex(top, level);
      var lastIndexLevel := Pow2(top - level + 1) - 1;
      if level > 0 { Pow2Grows(top - level, top); }
      while index < lastIndexLevel && (blockTree[index].used || blockTree[index].usedSubnodes != 0)
        invariant FirstIndex(top, level) <= index <= lastIndexLevel <= blockTree.Length
        invariant forall y: nat :: FirstIndex(top, level) <= y < index ==> blockTree[y] != Node(false, 0)
      {
        index := index + 1;
      }
      forall y: nat | y < NodeCount(top)
        ensures Level(top, y) == level <==> FirstIndex(top, level) <= y < lastIndexLevel
        ensures Vacant(top, live, y) <==> blockTree[y] == Node(false, 0)
      {
        LevelRange(top, y, level);
        VacantIffSummaryZero(top, live, y);
        assert blockTree[..][y] == Summary(live, y);
      }
      if index == lastIndexLevel {
        index := -1;
      }
    }

    method UpdateParents(index: nat, delta: int)
      requires index < blockTree.Length
      modifies blockTree
      ensures forall i: nat :: i < blockTree.Length ==> blockTree[i] == old(blockTree[i]).(
                usedSubnodes := old(blockTree[i]).usedSubnodes + if Under(i, index) then delta else 0)
    {
      var i := index;
      blockTree[i] := blockTree[i].(usedSubnodes := blockTree[i].usedSubnodes + delta);
      while i != 0
        invariant i < blockTree.Length && Under(i, index)
        invariant forall k: nat :: k < blockTree.Length ==> blockTree[k] == old(blockTree[k]).(
                    usedSubnodes := old(blockTree[k]).usedSubnodes + if i <= k && Under(k, index) then delta else 0)
        decreases i
      {
        NextAncestor(i, index);
        i := Parent(i);
        blockTree[i] := blockTree[i].(usedSubnodes := blockTree[i].usedSubnodes + delta);
      }
    }

    method SetUsed(index: nat, state: bool)
      modifies blockTree
      ensures forall i: nat :: i < blockTree.Length ==> blockTree[i] == old(blockTree[i]).(
                used := if Under(index, i) then state else old(blockTree[i]).used)
      decreases blockTree.Length - index
    {
      if index >= blockTree.Length {
        forall i: nat | i < blockTree.Length ensures !Under(index, i) { if Under(index, i) { UnderOrder(index, i); } }
        return;
      }
      blockTree[index] := blockTree[index].(used := state);
      SetUsed(Right(index), state);
      SetUsed(Left(index), state);
      forall i: nat | i < blockTree.Length
        ensures Under(index, i) <==> i == index || Under(Left(index), i) || Under(Right(index), i)
      {
        UnderChild(index, i);
      }
    }

    /** Takes the leftmost vacant block of the level, and fails only when the level has none. */
    method Alloc(size: nat) returns (ptr: nat)
      requires Valid()
      modifies this, blockTree
      ensures Valid()
      ensures ptr == 0 ==> live == old(live) && blockTree[..] == old(blockTree[..])
                           && usedMem == old(usedMem) && memChunks == old(memChunks)
      ensures size == 0 || size > HeapBytes(top) ==> ptr == 0
      ensures 0 < size <= HeapBytes(top) ==> exists level: nat ::
                level <= top && IsLevelFor(size, level)
                && if ptr == 0 then LevelFull(top, live, level)
                   else exists x :: IsFirstVacant(top, old(live), level, x)
                                    && live == old(live) + {x} && ptr == Address(x)
    {
      hide Under, Agrees, Vacant, Antichain, UnitsUnder, Start, IsLevelFor, LevelFull, Pow2, BlockOffset;
      ptr := 0;
      if size > HeapBytes(top) || size == 0 {
        return;
      }
      var level := GetLevel(size);
      LevelInRange(top, size, level);
      if level <= top {
        var index := GetFirstFreeIndex(level);
        if index < 0 {
          return;
        }
        UpdateParents(index, 1);
        SetUsed(index, true);
        memChunks := memChunks + 1;
        usedMem := usedMem + Pow2(level) * MIN_BLOCK;
        ghost var x: nat := index;
        AgreesAfterAdd(top, old(blockTree[..]), live, x, blockTree[..]);
        UnitsAfterAdd(top, live, x, 0);
        RootIsAbove(x);
        live := live + {x};
        OffsetIsStart(top, x);
        assert IsFirstVacant(top, old(live), level, x);
        ptr := heapStart + BlockOffset(top, index, level);
      }
    }

    method GetMaxLevel(offset: nat) returns (maxLevel: nat)
      ensures IsMaxLevel(top, offset, maxLevel)
    {
      maxLevel := top;
      var maxBlockLevel := Pow2(top);
      while offset % maxBlockLevel != 0
        invariant maxLevel <= top && maxBlockLevel == Pow2(maxLevel)
        invariant maxLevel < top ==> offset % Pow2(maxLevel + 1) != 0
        decreases maxLevel
      {
        maxLevel := maxLevel - 1;
        maxBlockLevel := maxBlockLevel / 2;
      }
    }

    /** Releases exactly the live block that starts at ptr; any other address changes nothing, except
        the one just past the heap. That releases the block that starts the heap and takes it off the
        memory counter twice, or, when the whole heap is one block, frees half of it. */
    method Free(ptr: nat)
      requires Valid()
      modifies this, blockTree
      ensures ptr != heapStart + HeapBytes(top) ==> Valid()
      ensures forall x :: x in old(live) && ptr == Address(x) ==> live == old(live) - {x}
      ensures ptr != heapStart + HeapBytes(top) && (forall x :: x in old(live) ==> ptr != Address(x)) ==>
                live == old(live) && blockTree[..] == old(blockTree[..])
                && usedMem == old(usedMem) && memChunks == old(memChunks)
      ensures ptr == heapStart + HeapBytes(top) ==>
                forall x :: x in old(live) && x != 0 && Address(x) == heapStart ==>
                  && live == old(live) - {x} && TreeOk()
                  && usedMem == (UnitsUnder(top, live, 0) - Size(top, x)) * MIN_BLOCK
      ensures ptr == heapStart + HeapBytes(top) && 0 in old(live) && top > 0 ==>
                usedMem == 0 && memChunks == 0 && HalfReleased(blockTree[..])
    {
      hide Antichain, Under, UnitsUnder, Start, SearchNode, Agrees, IsMaxLevel, InitialIndex, Pow2, Level, Size;
      NothingLiveOutside(top, live);
      if ptr == 0 || ptr < heapStart || ptr > heapStart + HeapBytes(top) {
        return;
      }
      var offset := ptr - heapStart;
      var level := GetMaxLevel(offset);
      var r := SearchNode(blockTree[..], top, offset, InitialIndex(top, offset, level), level);
      SearchOutcome(blockTree[..], top, live, offset, level, r);
      if offset == HeapBytes(top) {
        EndSearchOutcome(blockTree[..], top, live, level, r);
        if 0 in live {
          WholeHeap(top, blockTree[..], live);
        }
      }
      if r.Found? {
        Release(r.index, r.level);
      }
    }

    /** The end of mm_free, for the node and level found. */
    method Release(index: nat, level: nat)
      requires TreeOk() && index < blockTree.Length
      modifies this, blockTree
      ensures usedMem == old(usedMem) - Pow2(level) * MIN_BLOCK && memChunks == old(memChunks) - 1
      ensures forall i: nat :: i < blockTree.Length ==> blockTree[i] == Node(
                !Under(index, i) && old(blockTree[i]).used,
                old(blockTree[i]).usedSubnodes - if Under(i, index) then 1 else 0)
      ensures index in old(live) ==>
                && live == old(live) - {index} && TreeOk()
                && UnitsUnder(top, live, 0) == UnitsUnder(top, old(live), 0) - Size(top, index)
    {
      hide Antichain, Under, UnitsUnder, Agrees, Pow2;
      UpdateParents(index, -1);
      SetUsed(index, false);
      memChunks := memChunks - 1;
      usedMem := usedMem - Pow2(level) * MIN_BLOCK;
      if index in live {
        ReleasedIsConsistent(top, old(blockTree[..]), live, index, blockTree[..]);
        live := live - {index};
      }
    }

    /** The counter never claims more than the heap. */
    lemma UsedMemFits()
      requires Valid()
      ensures 0 <= usedMem <= HeapBytes(top)
    {
      hide Antichain, Agrees, UnitsUnder;
      UnitsFit(top, live, 0);
    }
  }

  /** A successful allocation followed by its release leaves both summaries of every node,
      and both counters, exactly as they were. */
  method AllocThenFree(b: Buddy, size: nat) returns (ptr: nat)
    requires b.Valid()
    modifies b, b.blockTree
    ensures b.Valid() && b.live == old(b.live)
    ensures b.blockTree[..] == old(b.blockTree[..])
    ensures b.usedMem == old(b.usedMem) && b.memChunks == old(b.memChunks)
  {
    ghost var before, live := b.blockTree[..], b.live;
    ptr := b.Alloc(size);
    if ptr != 0 {
      ghost var x :| x in b.live && b.live == live + {x} && ptr == b.Address(x) && x !in live;
      InsideHeap(b.top, x);
      b.Free(ptr);
      assert b.live == live;
      assert Agrees(before, live) && Agrees(b.blockTree[..], live);
      assert b.blockTree[..] == before;
    }
  }

  lemma {:induction false} NothingLiveOutside(top: nat, live: set<nat>)
    requires Antichain(top, live)
    ensures forall x :: x in live ==> 0 <= Start(top, x) * MIN_BLOCK < HeapBytes(top)
  {
    forall x | x in live
      ensures Start(top, x) * MIN_BLOCK < HeapBytes(top)
    {
      InsideHeap(top, x);
    }
  }

  /** What mm_free may rely on after the search. */
  lemma {:induction false} SearchOutcome(tree: seq<Node>, top: nat, live: set<nat>, offset: nat, level: nat,
                                         r: SearchResult)
    requires Antichain(top, live) && Agrees(tree, live) && |tree| == NodeCount(top)
    requires offset <= HeapBytes(top) && IsMaxLevel(top, offset, level)
    requires r == SearchNode(tree, top, offset, InitialIndex(top, offset, level), level)
    ensures r.Found? && offset < HeapBytes(top) ==>
              r.index in live && r.level == Level(top, r.index) && Start(top, r.index) * MIN_BLOCK == offset
    ensures r.Found? && offset < HeapBytes(top) ==>
              Pow2(r.level) == Size(top, r.index)
              && forall x :: x in live && Start(top, x) * MIN_BLOCK == offset ==> x == r.index
    ensures !r.Found? ==> forall x :: x in live ==> Start(top, x) * MIN_BLOCK != offset
  {
    NothingLiveOutside(top, live);
    SearchCorrectIff(tree, top, live, offset, level);
    forall x | x in live && Start(top, x) * MIN_BLOCK == offset
      ensures LiveAt(top, live, offset, x) && offset < HeapBytes(top)
    {
    }
    if r.Found? && offset < HeapBytes(top) {
      OneStartPerBlock(top, live, offset, r.index);
    }
  }

  lemma {:induction false} WholeHeap(top: nat, tree: seq<Node>, live: set<nat>)
    requires Antichain(top, live) && Agrees(tree, live) && |tree| == NodeCount(top) && 0 in live
    ensures live == {0} && UnitsUnder(top, live, 0) == Pow2(top)
    ensures forall i: nat :: i < |tree| ==> tree[i] == Node(true, if i == 0 then 1 else 0)
    ensures forall i: nat :: Under(i, 1) <==> i <= 1
  {
    hide Antichain, Agrees, Summary, UnitsUnder, NodeCount, Under;
    RootUsesEdge(tree, top, live);
    RootOnly(top, live);
    forall i: nat | i < |tree|
      ensures tree[i] == Node(true, if i == 0 then 1 else 0)
    {
      RootSummary(i);
      HasSummary(tree, live, i);
    }
    forall i: nat
      ensures Under(i, 1) <==> i <= 1
    {
      AboveOne(i);
    }
  }

  lemma {:induction false} HasSummary(tree: seq<Node>, live: set<nat>, i: nat)
    requires Agrees(tree, live) && i < |tree|
    ensures tree[i] == Summary(live, i)
  {
  }

  lemma {:induction false} RootSummary(i: nat)
    ensures Summary({0}, i) == Node(true, if i == 0 then 1 else 0)
  {
    RootIsAbove(i);
    assert 0 in {0};
    assert LiveUnder({0}, i) == if i == 0 then {0} else {};
  }

  lemma {:induction false} RootOnly(top: nat, live: set<nat>)
    requires 0 in live && forall x :: x in live ==> x == 0
    ensures live == {0} && UnitsUnder(top, live, 0) == Pow2(top)
  {
    hide UnitsUnder, NodeCount;
    RootIsBlock(top);
    assert live == {0} && {} + {0} == live;
    UnitsOfNothing(top, 0);
    UnitsAfterAdd(top, {}, 0, 0);
  }

  lemma {:induction false} RootIsBlock(top: nat)
    ensures 0 < NodeCount(top) && Size(top, 0) == Pow2(top)
  {
    assert Depth(0) == 0;
  }

  lemma {:induction false} AboveOne(i: nat)
    ensures Under(i, 1) <==> i <= 1
  {
    assert Parent(1) == 0;
  }

  /** And what it gets for the address just past the heap. */
  lemma {:induction false} EndSearchOutcome(tree: seq<Node>, top: nat, live: set<nat>, level: nat, r: SearchResult)
    requires Antichain(top, live) && Agrees(tree, live) && |tree| == NodeCount(top)
    requires IsMaxLevel(top, HeapBytes(top), level)
    requires r == SearchNode(tree, top, HeapBytes(top), InitialIndex(top, HeapBytes(top), level), level)
    ensures forall x :: x in live && x != 0 && Start(top, x) == 0 ==>
              r.Found? && r.index == x && Pow2(r.level) == 2 * Size(top, x)
    ensures 0 in live && top > 0 ==> r == Found(1, top)
  {
    hide SearchNode, Start, IsMaxLevel, InitialIndex, HeapBytes, Edge, Agrees, Level, Pow2, NodeCount;
    EndSearchStart(top, level);
    EndSearchMisses(tree, top, live);
    forall x | x in live && x != 0 && Start(top, x) == 0
      ensures Pow2(Level(top, x) + 1) == 2 * Size(top, x)
    {
      Doubled(Level(top, x));
    }
  }

  lemma {:induction false} Doubled(n: nat)
    ensures Pow2(n + 1) == 2 * Pow2(n)
  {
  }

  lemma {:induction false} ReleasedIsConsistent(top: nat, tree: seq<Node>, live: set<nat>, x: nat, after: seq<Node>)
    requires Antichain(top, live) && x in live && |tree| == |after| == NodeCount(top)
    requires Agrees(tree, live)
    requires forall i: nat :: i < |tree| ==> after[i] == Node(
               if Under(x, i) then false else tree[i].used,
               tree[i].usedSubnodes + if Under(i, x) then -1 else 0)
    ensures Antichain(top, live - {x}) && Agrees(after, live - {x})
    ensures UnitsUnder(top, live - {x}, 0) == UnitsUnder(top, live, 0) - Size(top, x)
  {
    AgreesAfterRemove(top, tree, live, x, after);
    assert live - {x} + {x} == live;
    UnitsAfterAdd(top, live - {x}, x, 0);
    RootIsAbove(x);
  }

  lemma {:induction false} OneStartPerBlock(top: nat, live: set<nat>, offset: nat, x: nat)
    requires Antichain(top, live) && LiveAt(top, live, offset, x)
    ensures forall y :: LiveAt(top, live, offset, y) ==> y == x
  {
    forall y | LiveAt(top, live, offset, y)
      ensures y == x
    {
      if y != x {
        AntichainDisjoint(top, live, x, y);
      }
    }
  }

  /** get_level answers the least level that passes its test. */
  lemma {:induction false} LevelIsLeast(size: nat, level: nat, m: nat)
    requires IsLevelFor(size, level) && size <= 257 * Pow2(m)
    ensures level <= m
  {
    if m + 1 < level {
      Pow2Grows(m, level - 1);
    }
  }

  /** The block handed out is large enough for the request if and only if the size does not
      fall in one of the gaps between 256 * 2^k and 257 * 2^k. */
  lemma {:induction false} BlockCoversIff(size: nat, level: nat)
    requires size > 0 && IsLevelFor(size, level)
    ensures size <= Pow2(level) * MIN_BLOCK
       <==> !exists k: nat :: Pow2(k) * MIN_BLOCK < size <= Pow2(k) * (MIN_BLOCK + 1)
  {
    if k: nat :| Pow2(k) * MIN_BLOCK < size <= Pow2(k) * (MIN_BLOCK + 1) {
      LevelIsLeast(size, level, k);
      if level < k {
        Pow2Grows(level, k);
      }
    }
  }

  /** The smallest such request: 257 bytes get a block of 256. */
  lemma {:induction false} Size257IsNotCovered()
    ensures IsLevelFor(257, 0) && 257 > Pow2(0) * MIN_BLOCK
  {
    assert Pow2(0) == 1;
  }

  lemma {:induction false} UnitsOfNothing(top: nat, i: nat)
    requires i < NodeCount(top)
    ensures UnitsUnder(top, {}, i) == 0
    decreases NodeCount(top) - i
  {
    if Right(i) < NodeCount(top) {
      UnitsOfNothing(top, Left(i));
      UnitsOfNothing(top, Right(i));
    }
  }

  lemma {:induction false} ShlHalf(s: nat, level: nat)
    ensures Shl(s / 2, level + 1) <= Shl(s, level)
    ensures Shl(s + 1, level) <= Shl(s / 2 + 1, level + 1)
  {
    ShlChild(s / 2, level);
    ShlOrder(2 * (s / 2), s, level);
    ShlChild(s / 2 + 1, level);
    ShlOrder(s + 1, 2 * (s / 2 + 1), level);
  }

  lemma {:induction false} ShlStaysAbove(s: nat, level: nat)
    requires s > MIN_BLOCK
    ensures Shl(s, level) >= 257 * Pow2(level)
  {
    ShlOrder(257, s, level);
    ShlIsProduct(257, level);
  }

  /** Every request the size test admits gets a level of the tree. */
  lemma {:induction false} LevelInRange(top: nat, size: nat, level: nat)
    requires 0 < size <= HeapBytes(top) && IsLevelFor(size, level)
    ensures level <= top
  {
    if level > top {
      if level - 1 > top {
        Pow2Grows(top, level - 1);
      }
    }
  }

  lemma {:induction false} LevelRange(top: nat, y: nat, level: nat)
    requires y < NodeCount(top) && level <= top
    ensures Level(top, y) == level <==> FirstIndex(top, level) <= y < Pow2(top - level + 1) - 1
  {
    DepthBounds(y);
    if FirstIndex(top, level) <= y < Pow2(top - level + 1) - 1 {
      DepthUnique(y, top - level);
    }
  }

  lemma {:induction false} NextAncestor(i: nat, index: nat)
    requires Under(i, index) && i != 0
    ensures Under(Parent(i), index)
    ensures forall k: nat :: Parent(i) < k < i ==> !Under(k, index)
  {
    assert Under(Parent(i), i);
    UnderTransitive(Parent(i), i, index);
    forall k: nat | Parent(i) < k < i
      ensures !Under(k, index)
    {
      if Under(k, index) {
        UnderComparable(k, i, index);
        assert false;
      }
    }
  }
}
