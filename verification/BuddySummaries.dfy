/** What the two per-node summaries of the buddy tree mean: both are determined
    by the plain set of allocated ("live") nodes. */
module BuddySummaries {
  import opened Powers
  import opened BuddyTree

  /** One entry of block_tree. */
  datatype Node = Node(used: bool, usedSubnodes: int)

  ghost predicate UsedBy(live: set<nat>, i: nat) {
    exists a :: a in live && Under(a, i)
  }

  ghost function LiveUnder(live: set<nat>, i: nat): set<nat> {
    set a | a in live && Under(i, a)
  }

  /** The entry every node must hold: "used" covers the node and everything below an
      allocated node, the counter covers the allocated nodes of the subtree. */
  ghost function Summary(live: set<nat>, i: nat): Node {
    Node(UsedBy(live, i), |LiveUnder(live, i)|)
  }

  ghost predicate Agrees(tree: seq<Node>, live: set<nat>) {
    forall i: nat :: i < |tree| ==> tree[i] == Summary(live, i)
  }

  /** Allocated nodes are tree nodes and none is above another. */
  ghost predicate Antichain(top: nat, live: set<nat>) {
    && (forall a :: a in live ==> a < NodeCount(top))
    && (forall a, b :: a in live && b in live && Under(a, b) ==> a == b)
  }

  /** No two allocated blocks share a byte. */
  lemma {:induction false} AntichainDisjoint(top: nat, live: set<nat>, a: nat, b: nat)
    requires Antichain(top, live) && a in live && b in live && a != b
    ensures Disjoint(top, a, b)
  {
    DisjointIffUnrelated(top, a, b);
  }

  /** The node's stretch of the heap meets no allocated block. */
  ghost predicate Vacant(top: nat, live: set<nat>, x: nat)
    requires x < NodeCount(top) && Antichain(top, live)
  {
    forall a :: a in live ==> Disjoint(top, a, x)
  }

  /** The two summaries of a single node decide whether its whole stretch is vacant. */
  lemma {:induction false} VacantIffSummaryZero(top: nat, live: set<nat>, x: nat)
    requires x < NodeCount(top) && Antichain(top, live)
    ensures Vacant(top, live, x) <==> Summary(live, x) == Node(false, 0)
  {
    forall a | a in live
      ensures Disjoint(top, a, x) <==> !Under(a, x) && !Under(x, a)
    {
      DisjointIffUnrelated(top, a, x);
    }
    if Vacant(top, live, x) {
      assert LiveUnder(live, x) == {};
    } else {
      var a :| a in live && !Disjoint(top, a, x);
      if !Under(a, x) {
        assert a in LiveUnder(live, x);
      }
    }
  }

  /** Marking a vacant node used below and counted above is what the larger set demands. */
  lemma {:induction false} AgreesAfterAdd(top: nat, tree: seq<Node>, live: set<nat>, x: nat, after: seq<Node>)
    requires Antichain(top, live) && x < NodeCount(top) == |tree| == |after|
    requires Agrees(tree, live) && Vacant(top, live, x)
    requires forall i: nat :: i < |tree| ==> after[i] == Node(
               if Under(x, i) then true else tree[i].used,
               tree[i].usedSubnodes + if Under(i, x) then 1 else 0)
    ensures Antichain(top, live + {x}) && x !in live
    ensures Agrees(after, live + {x})
  {
    VacantIffSummaryZero(top, live, x);
    assert !UsedBy(live, x) && LiveUnder(live, x) == {};
    assert Under(x, x);
    forall a | a in live
      ensures !Under(a, x) && !Under(x, a)
    {
      assert x !in live;
      assert Under(x, a) ==> a in LiveUnder(live, x);
    }
    forall i: nat | i < |tree|
      ensures after[i] == Summary(live + {x}, i)
    {
      UsedAfterAdd(live, x, i);
      CountAfterAdd(live, x, i);
      assert tree[i] == Summary(live, i);
    }
  }

  lemma {:induction false} UsedAfterAdd(live: set<nat>, x: nat, i: nat)
    ensures UsedBy(live + {x}, i) <==> Under(x, i) || UsedBy(live, i)
  {
    if UsedBy(live, i) {
      var a :| a in live && Under(a, i);
      assert a in live + {x};
    }
    if Under(x, i) {
      assert x in live + {x};
    }
  }

  lemma {:induction false} CountAfterAdd(live: set<nat>, x: nat, i: nat)
    requires x !in live
    ensures |LiveUnder(live + {x}, i)| == |LiveUnder(live, i)| + if Under(i, x) then 1 else 0
  {
    if Under(i, x) {
      assert LiveUnder(live + {x}, i) == LiveUnder(live, i) + {x};
    } else {
      assert LiveUnder(live + {x}, i) == LiveUnder(live, i);
    }
  }

  /** Clearing below a live node and uncounting above it is what the smaller set demands. */
  lemma {:induction false} AgreesAfterRemove(top: nat, tree: seq<Node>, live: set<nat>, x: nat, after: seq<Node>)
    requires Antichain(top, live) && x in live && |tree| == |after| == NodeCount(top)
    requires Agrees(tree, live)
    requires forall i: nat :: i < |tree| ==> after[i] == Node(
               if Under(x, i) then false else tree[i].used,
               tree[i].usedSubnodes - if Under(i, x) then 1 else 0)
    ensures Antichain(top, live - {x})
    ensures Agrees(after, live - {x})
  {
    var rest := live - {x};
    assert live == rest + {x};
    forall i: nat | i < |tree|
      ensures after[i] == Summary(rest, i)
    {
      UsedAfterAdd(rest, x, i);
      CountAfterAdd(rest, x, i);
      if Under(x, i) {
        OnlyUserBelow(top, live, x, i);
      }
      assert tree[i] == Summary(live, i);
    }
  }

  lemma {:induction false} OnlyUserBelow(top: nat, live: set<nat>, x: nat, i: nat)
    requires Antichain(top, live) && x in live && Under(x, i)
    ensures !UsedBy(live - {x}, i)
  {
    if UsedBy(live - {x}, i) {
      var a :| a in live - {x} && Under(a, i);
      if a <= x {
        UnderComparable(a, x, i);
      } else {
        UnderComparable(x, a, i);
      }
      assert false;
    }
  }

  // ----- bytes in use -----

  /** Total size, in smallest blocks, of the live nodes in a subtree. */
  ghost function UnitsUnder(top: nat, live: set<nat>, i: nat): nat
    requires i < NodeCount(top)
    decreases NodeCount(top) - i
  {
    (if i in live then Size(top, i) else 0)
    + if Right(i) < NodeCount(top)
      then UnitsUnder(top, live, Left(i)) + UnitsUnder(top, live, Right(i))
      else 0
  }

  /** A node without children is a leaf: both children exist or neither does. */
  lemma {:induction false} ChildrenTogether(top: nat, i: nat)
    ensures Left(i) < NodeCount(top) <==> Right(i) < NodeCount(top)
  {
    assert NodeCount(top) == 2 * Pow2(top) - 1;
  }

  lemma {:induction false} UnitsAfterAdd(top: nat, live: set<nat>, x: nat, i: nat)
    requires i < NodeCount(top) && x < NodeCount(top) && x !in live
    ensures UnitsUnder(top, live + {x}, i)
         == UnitsUnder(top, live, i) + if Under(i, x) then Size(top, x) else 0
    decreases NodeCount(top) - i
  {
    UnderChild(i, x);
    ChildrenTogether(top, i);
    if Under(Left(i), x) { UnderOrder(Left(i), x); }
    if Under(Right(i), x) { UnderOrder(Right(i), x); }
    if Right(i) < NodeCount(top) {
      UnitsAfterAdd(top, live, x, Left(i));
      UnitsAfterAdd(top, live, x, Right(i));
      SubtreesApart(i, x);
    }
  }

  lemma {:induction false} SubtreesApart(i: nat, x: nat)
    ensures !(Under(Left(i), x) && Under(Right(i), x))
    ensures Under(Left(i), x) || Under(Right(i), x) ==> x != i
  {
    if Under(Left(i), x) && Under(Right(i), x) {
      UnderComparable(Left(i), Right(i), x);
      assert false;
    }
    if Under(Left(i), x) { UnderOrder(Left(i), x); }
    if Under(Right(i), x) { UnderOrder(Right(i), x); }
  }

  /** Blocks that do not overlap fit where they are: a subtree never holds more than its own size. */
  lemma {:induction false} UnitsFit(top: nat, live: set<nat>, i: nat)
    requires i < NodeCount(top) && Antichain(top, live)
    ensures UnitsUnder(top, live, i) <= Size(top, i)
    ensures (forall a :: a in live ==> !Under(i, a)) ==> UnitsUnder(top, live, i) == 0
    decreases NodeCount(top) - i
  {
    hide Parent, Size;
    assert Under(i, i);
    if Right(i) < NodeCount(top) {
      UnitsFit(top, live, Left(i));
      UnitsFit(top, live, Right(i));
      HalvesMakeWhole(top, i);
      forall a | a in live && (i in live || !Under(i, a))
        ensures !Under(Left(i), a) && !Under(Right(i), a)
      {
        UnderChild(i, a);
        SubtreesApart(i, a);
      }
    }
  }

  lemma {:induction false} HalvesMakeWhole(top: nat, i: nat)
    requires Right(i) < NodeCount(top)
    ensures Size(top, Left(i)) + Size(top, Right(i)) == Size(top, i)
  {
    assert Parent(Left(i)) == i == Parent(Right(i));
    ChildSize(top, Left(i));
    ChildSize(top, Right(i));
  }
}
