/** How mm_free rediscovers a node from an address alone. */
module BuddySearch {
  import opened Powers
  import opened BuddyTree
  import opened BuddySummaries

  /** search_node answers an index or -1; OutsideTree stands for reading past block_tree. */
  datatype SearchResult = Found(index: nat, level: nat) | NotFound | OutsideTree

  /** get_ptr, relative to the start of the heap. */
  function BlockOffset(top: nat, index: nat, level: nat): int
    requires level <= top
  {
    Shl(index - FirstIndex(top, level), level) * MIN_BLOCK
  }

  function SearchNode(tree: seq<Node>, top: nat, offset: int, index: nat, level: nat): (r: SearchResult)
    requires level <= top
    ensures r.Found? ==> r.index < |tree| && tree[r.index].used && r.level <= level
    decreases level
  {
    if index >= |tree| then OutsideTree
    else if tree[index].used then
      if offset == BlockOffset(top, index, level) then Found(index, level) else NotFound
    else if level == 0 then NotFound
    else if offset < BlockOffset(top, Right(index), level - 1) then
      SearchNode(tree, top, offset, Left(index), level - 1)
    else
      SearchNode(tree, top, offset, Right(index), level - 1)
  }

  function BlockBytes(level: nat): (r: nat)
    ensures r >= MIN_BLOCK
  {
    Pow2(level) * MIN_BLOCK
  }

  function InitialIndex(top: nat, offset: nat, level: nat): nat
    requires level <= top
  {
    DivideByBlock(offset, level);
    FirstIndex(top, level) + offset / BlockBytes(level)
  }

  lemma {:induction false} DivideByBlock(x: nat, level: nat)
    ensures var k := x / BlockBytes(level);
      k >= 0 && Shl(k, level) * MIN_BLOCK <= x < (Shl(k, level) + Pow2(level)) * MIN_BLOCK
  {
    var k, r := x / BlockBytes(level), x % BlockBytes(level);
    QuotientOf(x, BlockBytes(level));
    ShlIsProduct(k, level);
    Regroup(k, Pow2(level));
  }

  lemma {:induction false} QuotientOf(x: nat, m: nat)
    requires m > 0
    ensures x == (x / m) * m + x % m && 0 <= x % m < m && x / m >= 0
  {
  }

  lemma {:induction false} Regroup(k: int, p: int)
    ensures k * (p * MIN_BLOCK) == (k * p) * MIN_BLOCK
  {
  }

  /** The answer of get_max_level: the largest level whose bare power of two, not
      block size, divides the offset. */
  ghost predicate IsMaxLevel(top: nat, offset: nat, level: nat) {
    && level <= top
    && offset % Pow2(level) == 0
    && (level < top ==> offset % Pow2(level + 1) != 0)
  }

  ghost predicate LiveAt(top: nat, live: set<nat>, offset: nat, x: nat)
    requires Antichain(top, live)
  {
    x in live && Start(top, x) * MIN_BLOCK == offset
  }

  /** What the search ought to answer for an offset. */
  ghost predicate Correct(top: nat, live: set<nat>, offset: nat, r: SearchResult)
    requires Antichain(top, live)
  {
    match r
    case Found(x, level) => LiveAt(top, live, offset, x) && level == Level(top, x)
    case NotFound => forall x :: !LiveAt(top, live, offset, x)
    case OutsideTree => false
  }

  lemma {:induction false} OffsetIsStart(top: nat, i: nat)
    requires i < NodeCount(top)
    ensures BlockOffset(top, i, Level(top, i)) == Start(top, i) * MIN_BLOCK
  {
    hide Start, Shl;
    StartClosedForm(top, i);
    DepthBounds(i);
  }

  ghost predicate Covers(top: nat, i: nat, offset: nat)
    requires i < NodeCount(top)
  {
    Start(top, i) * MIN_BLOCK <= offset < End(top, i) * MIN_BLOCK
  }

  /** The node the search starts from covers the offset, on the level asked for. */
  lemma {:induction false} InitialIndexCovers(top: nat, offset: nat, level: nat)
    requires level <= top && offset < HeapBytes(top)
    ensures var i := InitialIndex(top, offset, level);
      && i < NodeCount(top) && Level(top, i) == level
      && Covers(top, i, offset)
  {
    var k := offset / BlockBytes(level);
    DivideByBlock(offset, level);
    var across := Pow2(top - level);
    Pow2Shl(top - level, level);
    ShlOrder(across, k, level);
    var i := InitialIndex(top, offset, level);
    assert i + 1 == across + k;
    DepthUnique(i, top - level);
    IndexInTree(top, i);
    StartClosedForm(top, i);
  }

  lemma {:induction false} IndexInTree(top: nat, i: nat)
    requires Depth(i) <= top
    ensures i < NodeCount(top)
  {
    DepthBounds(i);
    if Depth(i) < top {
      Pow2Grows(Depth(i), top);
    }
  }

  /** A live block lies at or below every node of no lower level that covers its first byte. */
  lemma {:induction false} CoverIsAbove(top: nat, i: nat, x: nat)
    requires i < NodeCount(top) && x < NodeCount(top)
    requires Level(top, x) <= Level(top, i)
    requires Covers(top, i, Start(top, x) * MIN_BLOCK)
    ensures Under(i, x)
  {
    DisjointIffUnrelated(top, i, x);
    assert Start(top, i) <= Start(top, x) < End(top, i);
    if Under(x, i) {
      UnderOrder(x, i);
    }
  }

  /** A block's address is a multiple of its size, 2^(level + 8) bytes. */
  lemma {:induction false} StartAligned(top: nat, x: nat)
    requires x < NodeCount(top)
    ensures (Start(top, x) * MIN_BLOCK) % Pow2(Level(top, x) + 8) == 0
  {
    StartClosedForm(top, x);
    var k, level := Position(x), Level(top, x);
    ShlTwice(k, level, 8);
    ShiftByEight(Shl(k, level));
    ShlDivides(k, level + 8);
  }

  lemma {:induction false} ShiftByEight(k: int)
    ensures Shl(k, 8) == k * MIN_BLOCK
  {
    ShlIsProduct(k, 8);
    assert Pow2(8) == 256;
  }

  /** A level reached by halving dominates every level whose power divides the offset. */
  lemma {:induction false} MaxLevelIsMax(top: nat, offset: nat, level: nat, m: nat)
    requires IsMaxLevel(top, offset, level) && m <= top && offset % Pow2(m) == 0
    ensures m <= level
  {
    if m > level {
      MultipleOfSmaller(offset, level + 1, m);
    }
  }

  /** From any node above a live block, the search reaches exactly that block. */
  lemma {:induction false} SearchReaches(tree: seq<Node>, top: nat, live: set<nat>, i: nat, x: nat)
    requires Antichain(top, live) && Agrees(tree, live) && |tree| == NodeCount(top)
    requires x in live && Under(i, x)
    ensures i < NodeCount(top)
    ensures SearchNode(tree, top, Start(top, x) * MIN_BLOCK, i, Level(top, i)) == Found(x, Level(top, x))
    decreases x - i
  {
    UnderInside(top, i, x);
    if i == x {
      OffsetIsStart(top, i);
      assert Under(x, x);
      assert tree[x] == Summary(live, x);
    } else {
      var next := StepTowards(tree, top, live, i, x);
      SearchReaches(tree, top, live, next, x);
    }
  }

  /** Above a live block nothing is marked used, so the search moves on to the child above the block. */
  lemma {:induction false} StepTowards(tree: seq<Node>, top: nat, live: set<nat>, i: nat, x: nat) returns (next: nat)
    requires Antichain(top, live) && Agrees(tree, live) && |tree| == NodeCount(top)
    requires x in live && i < NodeCount(top) && Under(i, x) && i != x
    ensures i < next < NodeCount(top) && Under(next, x) && Level(top, i) == Level(top, next) + 1
    ensures var offset := Start(top, x) * MIN_BLOCK;
      SearchNode(tree, top, offset, i, Level(top, i)) == SearchNode(tree, top, offset, next, Level(top, next))
  {
    hide Start, BlockOffset, LiveUnder, SearchNode, Parent, Size, Pow2, Depth;
    NothingLiveAbove(top, live, i, x);
    UnderChild(i, x);
    next := if Under(Left(i), x) then Left(i) else Right(i);
    UnderInside(top, next, x);
    DescentTurn(top, i, next, Start(top, x));
    assert tree[i] == Summary(live, i);
    SearchUnfolds(tree, top, Start(top, x) * MIN_BLOCK, i, Level(top, i));
  }

  /** Below a node that is not used the search goes on in one of the children. */
  lemma {:induction false} SearchUnfolds(tree: seq<Node>, top: nat, offset: int, i: nat, level: nat)
    requires 0 < level <= top && i < |tree| && !tree[i].used
    ensures SearchNode(tree, top, offset, i, level) ==
              SearchNode(tree, top, offset,
                         if offset < BlockOffset(top, Right(i), level - 1) then Left(i) else Right(i), level - 1)
  {
    hide BlockOffset;
  }

  lemma {:induction false} NothingLiveAbove(top: nat, live: set<nat>, i: nat, x: nat)
    requires Antichain(top, live) && x in live && Under(i, x) && i != x
    ensures !UsedBy(live, i)
  {
    if UsedBy(live, i) {
      var a :| a in live && Under(a, i);
      UnderTransitive(a, i, x);
      UnderOrder(a, i);
      UnderOrder(i, x);
      assert false;
    }
  }

  /** The comparison with the right child's address picks the child that covers the position. */
  lemma {:induction false} DescentTurn(top: nat, i: nat, next: nat, pos: nat)
    requires i < NodeCount(top) && (next == Left(i) || next == Right(i)) && next < NodeCount(top)
    requires Start(top, next) <= pos < End(top, next)
    ensures Level(top, i) > 0 && Level(top, next) == Level(top, i) - 1
    ensures next == Left(i) <==> pos * MIN_BLOCK < BlockOffset(top, Right(i), Level(top, i) - 1)
  {
    ChildrenTogether(top, i);
    assert Parent(next) == i;
    ChildSize(top, next);
    assert Parent(Right(i)) == i && Parent(Left(i)) == i;
    ChildSize(top, Right(i));
    ChildSize(top, Left(i));
    OffsetIsStart(top, Right(i));
  }

  /** Whatever the search finds below the node it starts from is a live block at that very address. */
  lemma {:induction false} SearchFindsOnlyLive(tree: seq<Node>, top: nat, live: set<nat>, offset: nat, i: nat)
    requires Antichain(top, live) && Agrees(tree, live) && |tree| == NodeCount(top)
    requires i < NodeCount(top) && Covers(top, i, offset)
    requires tree[i].used && Start(top, i) * MIN_BLOCK == offset ==> i in live
    ensures var r := SearchNode(tree, top, offset, i, Level(top, i));
      !r.OutsideTree? && (r.Found? ==> LiveAt(top, live, offset, r.index) && r.level == Level(top, r.index))
    decreases Level(top, i)
  {
    OffsetIsStart(top, i);
    if !tree[i].used && Level(top, i) > 0 {
      var next := Turn(top, offset, i);
      assert tree[i] == Summary(live, i) && tree[next] == Summary(live, next);
      if tree[next].used {
        var a :| a in live && Under(a, next);
        assert a == next || Under(a, i);
      }
      SearchFindsOnlyLive(tree, top, live, offset, next);
    }
  }

  /** One step down: the child the search turns to covers the offset. */
  lemma {:induction false} Turn(top: nat, offset: nat, i: nat) returns (next: nat)
    requires i < NodeCount(top) && Covers(top, i, offset) && Level(top, i) > 0
    ensures next < NodeCount(top) && Covers(top, next, offset)
    ensures Level(top, next) == Level(top, i) - 1 && Parent(next) == i && next > 0
    ensures next == if offset < BlockOffset(top, Right(i), Level(top, i) - 1) then Left(i) else Right(i)
  {
    assert Parent(Left(i)) == i == Parent(Right(i));
    IndexInTree(top, Left(i));
    IndexInTree(top, Right(i));
    ChildSize(top, Left(i));
    ChildSize(top, Right(i));
    OffsetIsStart(top, Right(i));
    next := if offset < BlockOffset(top, Right(i), Level(top, i) - 1) then Left(i) else Right(i);
  }

  /** For every address inside the heap the search is exact: it finds the live block
      that starts there, and nothing when there is none. */
  lemma {:induction false} SearchCorrectInside(tree: seq<Node>, top: nat, live: set<nat>, offset: nat, level: nat)
    requires Antichain(top, live) && Agrees(tree, live) && |tree| == NodeCount(top)
    requires offset < HeapBytes(top) && IsMaxLevel(top, offset, level)
    ensures Correct(top, live, offset,
                    SearchNode(tree, top, offset, InitialIndex(top, offset, level), level))
  {
    var i := InitialIndex(top, offset, level);
    InitialIndexCovers(top, offset, level);
    forall x | LiveAt(top, live, offset, x)
      ensures SearchNode(tree, top, offset, i, level) == Found(x, Level(top, x))
    {
      StartAligned(top, x);
      MultipleOfSmaller(offset, Level(top, x), Level(top, x) + 8);
      MaxLevelIsMax(top, offset, level, Level(top, x));
      CoverIsAbove(top, i, x);
      SearchReaches(tree, top, live, i, x);
    }
    assert tree[i] == Summary(live, i);
    if tree[i].used && Start(top, i) * MIN_BLOCK == offset {
      StartAligned(top, i);
      MultipleOfSmaller(offset, level + 1, level + 8);
      assert level == top;
      DepthBounds(i);
      assert i == 0;
    }
    SearchFindsOnlyLive(tree, top, live, offset, i);
  }

  // ----- the address one past the heap, which mm_free's range test lets through -----

  /** The node of depth k on the left edge of the tree: its block is the first of its size. */
  function Edge(k: nat): (i: nat) {
    Pow2(k) - 1
  }

  lemma {:induction false} EdgeParent(k: nat)
    requires k > 0
    ensures Edge(k) == Left(Edge(k - 1)) && Parent(Edge(k)) == Edge(k - 1) && Edge(k) > 0
  {
  }

  lemma {:induction false} EdgeBounds()
    ensures Edge(0) == 0 && Edge(1) == 1
  {
    assert Pow2(0) == 1 && Pow2(1) == 2;
  }

  lemma {:induction false} EdgeInTree(top: nat, k: nat)
    ensures Edge(k) < NodeCount(top) <==> k <= top
  {
    if k <= top {
      Pow2Grows(k, top + 1);
    } else if k > top + 1 {
      Pow2Grows(top + 1, k);
    }
  }

  lemma {:induction false} EdgeStartsHeap(top: nat, k: nat)
    requires k <= top
    ensures Edge(k) < NodeCount(top) && Depth(Edge(k)) == k && Start(top, Edge(k)) == 0
  {
    hide Pow2, Parent, Edge, Left, NodeCount;
    EdgeInTree(top, k);
    EdgeBounds();
    if k > 0 {
      EdgeParent(k);
      EdgeStartsHeap(top, k - 1);
    }
  }

  lemma {:induction false} StartsHeapOnEdge(top: nat, x: nat)
    requires x < NodeCount(top) && Start(top, x) == 0
    ensures x == Edge(Depth(x)) && Depth(x) <= top
  {
    hide Pow2, Edge, Parent, Left, NodeCount;
    DepthAtMost(top, x);
    EdgeBounds();
    if x > 0 {
      assert x == Left(Parent(x)) by {
        assert Size(top, x) > 0;
      }
      StartsHeapOnEdge(top, Parent(x));
      EdgeParent(Depth(x));
    }
  }

  /** Searching for the end of the heap walks down the left edge of the tree, below the root, where
      every node seems to start at that address: it stops at the first used one, one level too
      high, or leaves the array. */
  lemma {:induction false} EndSearchWalksEdge(tree: seq<Node>, top: nat, k: nat) returns (m: nat)
    requires |tree| == NodeCount(top) && 1 <= k <= top + 1
    ensures k <= m <= top + 1
    ensures forall j :: k <= j < m ==> Edge(j) < |tree| && !tree[Edge(j)].used
    ensures SearchNode(tree, top, HeapBytes(top), Edge(k), top + 1 - k)
         == if m <= top then Found(Edge(m), top + 1 - m) else OutsideTree
    ensures m <= top ==> Edge(m) < |tree| && tree[Edge(m)].used
    decreases top + 1 - k
  {
    m := k;
    EdgeInTree(top, k);
    if k <= top && !tree[Edge(k)].used {
      EdgeTurn(top, k);
      m := EndSearchWalksEdge(tree, top, k + 1);
    } else if k <= top {
      EdgeSeemsToStartAtEnd(top, k);
    }
  }

  lemma {:induction false} EdgeSeemsToStartAtEnd(top: nat, k: nat)
    requires 1 <= k <= top + 1
    ensures BlockOffset(top, Edge(k), top + 1 - k) == HeapBytes(top)
  {
    Pow2Shl(k - 1, top + 1 - k);
    assert Pow2(k) == 2 * Pow2(k - 1);
    hide Pow2, Shl;
    assert Edge(k) - FirstIndex(top, top + 1 - k) == Pow2(k - 1);
  }

  lemma {:induction false} EdgeTurn(top: nat, k: nat)
    requires 1 <= k <= top
    ensures HeapBytes(top) < BlockOffset(top, Right(Edge(k)), top - k) && Left(Edge(k)) == Edge(k + 1)
  {
    Pow2Shl(k, top - k);
    ShlOrder(Pow2(k), Pow2(k) + 1, top - k);
  }

  lemma {:induction false} AboveEdge(a: nat, k: nat)
    requires Under(a, Edge(k))
    ensures exists j :: 0 <= j <= k && a == Edge(j)
    decreases k
  {
    hide Edge, Parent;
    EdgeBounds();
    if a != Edge(k) {
      EdgeParent(k);
      AboveEdge(a, k - 1);
    }
  }

  lemma {:induction false} RootUsesEdge(tree: seq<Node>, top: nat, live: set<nat>)
    requires Antichain(top, live) && Agrees(tree, live) && |tree| == NodeCount(top) && 0 in live
    ensures forall i :: 0 <= i < |tree| ==> tree[i].used
    ensures forall x :: x in live ==> x == 0
    ensures 1 < |tree| <==> top > 0
  {
    forall i: nat | i < |tree|
      ensures tree[i].used
    {
      RootIsAbove(i);
      assert tree[i] == Summary(live, i);
    }
    forall x | x in live
      ensures x == 0
    {
      RootIsAbove(x);
    }
    EdgeBounds();
    EdgeInTree(top, 1);
  }

  lemma {:induction false} RootAlone(top: nat, live: set<nat>, x: nat)
    requires Antichain(top, live) && x in live && x != 0
    ensures 0 !in live
  {
    RootIsAbove(x);
  }

  lemma {:induction false} LiveEdgeIsUsed(tree: seq<Node>, top: nat, live: set<nat>, x: nat)
    requires Antichain(top, live) && Agrees(tree, live) && |tree| == NodeCount(top)
    requires x in live && x != 0 && Start(top, x) == 0
    ensures 1 <= Depth(x) <= top && x == Edge(Depth(x)) && tree[x].used
  {
    StartsHeapOnEdge(top, x);
    assert tree[x] == Summary(live, x) && Under(x, x);
  }

  lemma {:induction false} OneAtStart(top: nat, live: set<nat>, x: nat, y: nat)
    requires Antichain(top, live) && x in live && y in live && Start(top, x) == Start(top, y)
    ensures x == y
  {
    if x != y {
      AntichainDisjoint(top, live, x, y);
    }
  }

  lemma {:induction false} FirstUsedIsLive(tree: seq<Node>, top: nat, live: set<nat>, m: nat)
    requires Antichain(top, live) && Agrees(tree, live) && |tree| == NodeCount(top)
    requires 0 !in live && 1 <= m <= top && Edge(m) < |tree| && tree[Edge(m)].used
    requires forall j :: 1 <= j < m ==> Edge(j) < |tree| && !tree[Edge(j)].used
    ensures Edge(m) in live && Start(top, Edge(m)) == 0
  {
    EdgeStartsHeap(top, m);
    var x := Edge(m);
    assert tree[x] == Summary(live, x) && UsedBy(live, x);
    var a :| a in live && Under(a, x);
    AboveEdge(a, m);
    var j :| 0 <= j <= m && a == Edge(j);
    EdgeBounds();
    if a < |tree| {
      assert tree[a] == Summary(live, a);
      assert Under(a, a) && UsedBy(live, a);
    }
  }

  /** When the whole heap is one block, every node is used, so the search stops where it starts. */
  lemma {:induction false} EndSearchOfRoot(tree: seq<Node>, top: nat, live: set<nat>)
    requires Antichain(top, live) && Agrees(tree, live) && |tree| == NodeCount(top) && 0 in live
    ensures SearchNode(tree, top, HeapBytes(top), Edge(1), top) == if top > 0 then Found(1, top) else OutsideTree
  {
    hide SearchNode, Antichain, Agrees, HeapBytes, NodeCount, Edge;
    RootUsesEdge(tree, top, live);
    EdgeBounds();
    var m := EndSearchWalksEdge(tree, top, 1);
    assert m == 1;
  }

  /** The block that starts the heap is the first used node on the left edge. */
  lemma {:induction false} EndSearchOfBlock(tree: seq<Node>, top: nat, live: set<nat>, x: nat)
    requires Antichain(top, live) && Agrees(tree, live) && |tree| == NodeCount(top)
    requires x in live && x < NodeCount(top) && x != 0 && Start(top, x) == 0
    ensures SearchNode(tree, top, HeapBytes(top), Edge(1), top) == Found(x, Level(top, x) + 1)
  {
    hide SearchNode, Antichain, Agrees, HeapBytes, NodeCount, Edge, Start;
    RootAlone(top, live, x);
    LiveEdgeIsUsed(tree, top, live, x);
    var m := EndSearchWalksEdge(tree, top, 1);
    assert m <= Depth(x);
    FirstUsedIsLive(tree, top, live, m);
    EdgeStartsHeap(top, m);
    OneAtStart(top, live, x, Edge(m));
  }

  /** With no block there, no node on the edge is used. */
  lemma {:induction false} EndSearchOfNothing(tree: seq<Node>, top: nat, live: set<nat>)
    requires Antichain(top, live) && Agrees(tree, live) && |tree| == NodeCount(top)
    requires 0 !in live && forall x :: x in live && x < NodeCount(top) ==> Start(top, x) != 0
    ensures SearchNode(tree, top, HeapBytes(top), Edge(1), top) == OutsideTree
  {
    hide SearchNode, Antichain, Agrees, HeapBytes, Edge, Start;
    var m := EndSearchWalksEdge(tree, top, 1);
    if m <= top {
      FirstUsedIsLive(tree, top, live, m);
    }
  }

  /** What mm_free finds for the address just past the heap: the block that starts the heap, taken
      for one of twice its size; a node that is no block, when the whole heap is one block; and
      otherwise it reads past the tree. */
  lemma {:induction false} EndSearchMisses(tree: seq<Node>, top: nat, live: set<nat>)
    requires Antichain(top, live) && Agrees(tree, live) && |tree| == NodeCount(top)
    ensures var r := SearchNode(tree, top, HeapBytes(top), Edge(1), top);
      && (0 in live ==> r == if top > 0 then Found(1, top) else OutsideTree)
      && (forall x :: x in live && x != 0 && Start(top, x) == 0 ==> r == Found(x, Level(top, x) + 1))
      && (0 !in live && (forall x :: x in live ==> Start(top, x) != 0) ==> r == OutsideTree)
  {
    hide SearchNode, Agrees, HeapBytes, NodeCount, Edge, Start;
    if 0 in live {
      EndSearchOfRoot(tree, top, live);
    }
    if 0 !in live && forall x :: x in live ==> Start(top, x) != 0 {
      EndSearchOfNothing(tree, top, live);
    }
    forall x | x in live && x != 0 && Start(top, x) == 0
      ensures SearchNode(tree, top, HeapBytes(top), Edge(1), top) == Found(x, Level(top, x) + 1)
    {
      EndSearchOfBlock(tree, top, live, x);
    }
  }

  /** The search is right for an address the range test accepts if and only if that
      address is not the one just past the heap. */
  lemma {:induction false} SearchCorrectIff(tree: seq<Node>, top: nat, live: set<nat>, offset: nat, level: nat)
    requires Antichain(top, live) && Agrees(tree, live) && |tree| == NodeCount(top)
    requires offset <= HeapBytes(top) && IsMaxLevel(top, offset, level)
    ensures Correct(top, live, offset,
                    SearchNode(tree, top, offset, InitialIndex(top, offset, level), level))
       <==> offset != HeapBytes(top)
  {
    hide SearchNode, InitialIndex, IsMaxLevel;
    if offset < HeapBytes(top) {
      SearchCorrectInside(tree, top, live, offset, level);
    } else {
      EndSearchStart(top, level);
      var _ := EndSearchWalksEdge(tree, top, 1);
      forall x | x in live
        ensures !LiveAt(top, live, offset, x)
      {
        InsideHeap(top, x);
      }
    }
  }

  /** For the end of the heap the search starts at node 1, but on the root's level. */
  lemma {:induction false} EndSearchStart(top: nat, level: nat)
    requires IsMaxLevel(top, HeapBytes(top), level)
    ensures level == top && InitialIndex(top, HeapBytes(top), level) == Edge(1)
  {
    Pow2Shl(8, top);
    Pow2Shl(top, 8);
    ShiftByEight(Pow2(top));
    ShlDivides(Pow2(8), top);
    MaxLevelIsMax(top, HeapBytes(top), level, top);
    DivUnique(HeapBytes(top), BlockBytes(top), 1, 0);
    assert Pow2(1) == 2 && Pow2(0) == 1;
  }
}
