/** The implicit binary tree of the buddy allocator: index arithmetic, the
    ancestor relation, and the stretch of the heap each node stands for.
    Heap positions are counted in units of the smallest block. */
module BuddyTree {
  import opened Powers

  const MIN_BLOCK := 256

  /** The array holds a complete tree of `top + 1` levels (top is MAX_LEVEL, 15 in the kernel). */
  function NodeCount(top: nat): nat {
    Pow2(top + 1) - 1
  }

  function HeapBytes(top: nat): nat {
    Pow2(top) * MIN_BLOCK
  }

  function Parent(i: nat): (p: nat)
    requires i > 0
    ensures p < i
    ensures i == Left(p) || i == Right(p)
  {
    (i + 1) / 2 - 1
  }

  function Left(i: nat): nat {
    2 * i + 1
  }

  function Right(i: nat): nat {
    2 * i + 2
  }

  /** Index of the leftmost node of a level; level 0 holds the leaves. */
  function FirstIndex(top: nat, level: nat): nat
    requires level <= top
  {
    Pow2(top - level) - 1
  }

  /** a is i itself or one of i's ancestors. */
  predicate Under(a: nat, i: nat)
    decreases i
  {
    a == i || (a < i && Under(a, Parent(i)))
  }

  function Depth(i: nat): nat {
    if i == 0 then 0 else 1 + Depth(Parent(i))
  }

  lemma {:induction false} DepthAtMost(top: nat, i: nat)
    requires i < NodeCount(top)
    ensures Depth(i) <= top
  {
    DepthBounds(i);
    if Depth(i) > top {
      Pow2Grows(top, Depth(i));
    }
  }

  function Level(top: nat, i: nat): (r: nat)
    requires i < NodeCount(top)
    ensures r + Depth(i) == top
  {
    DepthAtMost(top, i);
    top - Depth(i)
  }

  function Size(top: nat, i: nat): (r: nat)
    requires i < NodeCount(top)
    ensures r >= 1
  {
    Pow2(Level(top, i))
  }

  /** Where a node's stretch begins: a right child starts half-way into its parent. */
  function Start(top: nat, i: nat): nat
    requires i < NodeCount(top)
  {
    if i == 0 then 0
    else if i == Left(Parent(i)) then Start(top, Parent(i))
    else Start(top, Parent(i)) + Size(top, i)
  }

  function End(top: nat, i: nat): nat
    requires i < NodeCount(top)
  {
    Start(top, i) + Size(top, i)
  }

  ghost predicate Disjoint(top: nat, i: nat, j: nat)
    requires i < NodeCount(top) && j < NodeCount(top)
  {
    End(top, i) <= Start(top, j) || End(top, j) <= Start(top, i)
  }

  lemma {:induction false} DepthBounds(i: nat)
    ensures Pow2(Depth(i)) <= i + 1 < 2 * Pow2(Depth(i))
  {
    hide Parent;
    if i > 0 {
      DepthBounds(Parent(i));
    }
  }

  /** The only depth whose index range contains i is i's own. */
  lemma {:induction false} DepthUnique(i: nat, d: nat)
    requires Pow2(d) <= i + 1 < 2 * Pow2(d)
    ensures Depth(i) == d
  {
    DepthBounds(i);
    if Depth(i) < d {
      Pow2Grows(Depth(i), d);
    } else if d < Depth(i) {
      Pow2Grows(d, Depth(i));
    }
  }

  lemma {:induction false} UnderOrder(a: nat, i: nat)
    requires Under(a, i)
    ensures a <= i && Depth(a) <= Depth(i)
    ensures Depth(a) == Depth(i) ==> a == i
  {
    if a != i {
      UnderOrder(a, Parent(i));
    }
  }

  lemma {:induction false} UnderTransitive(a: nat, b: nat, c: nat)
    requires Under(a, b) && Under(b, c)
    ensures Under(a, c)
    decreases c
  {
    if b != c {
      UnderTransitive(a, b, Parent(c));
      UnderOrder(a, b);
      UnderOrder(b, c);
    }
  }

  /** Two ancestors of the same node lie on one path. */
  lemma {:induction false} UnderComparable(a: nat, b: nat, c: nat)
    requires Under(a, c) && Under(b, c) && a <= b
    ensures Under(a, b)
    decreases c
  {
    UnderOrder(b, c);
    if b != c {
      UnderComparable(a, b, Parent(c));
    }
  }

  /** Everything strictly below a node is below one of its two children. */
  lemma {:induction false} UnderChild(a: nat, i: nat)
    ensures Under(a, i) <==> i == a || Under(Left(a), i) || Under(Right(a), i)
  {
    if i > a {
      UnderChild(a, Parent(i));
      assert Under(a, i) == Under(a, Parent(i));
      if Under(Left(a), i) { UnderOrder(Left(a), i); }
      if Under(Right(a), i) { UnderOrder(Right(a), i); }
      if Parent(i) == a {
        assert i == Left(a) || i == Right(a);
      } else {
        assert i != Left(a) && i != Right(a);
      }
    } else {
      if Under(Left(a), i) { UnderOrder(Left(a), i); }
      if Under(Right(a), i) { UnderOrder(Right(a), i); }
    }
  }

  lemma {:induction false} RootIsAbove(i: nat)
    ensures Under(0, i)
  {
    if i > 0 {
      RootIsAbove(Parent(i));
    }
  }

  lemma {:induction false} ChildSize(top: nat, i: nat)
    requires 0 < i < NodeCount(top)
    ensures Level(top, Parent(i)) == Level(top, i) + 1
    ensures Size(top, Parent(i)) == 2 * Size(top, i)
  {
    hide Parent;
    assert Depth(i) == 1 + Depth(Parent(i));
  }

  /** A node's stretch lies inside the stretch of every node above it. */
  lemma {:induction false} UnderInside(top: nat, a: nat, i: nat)
    requires i < NodeCount(top) && Under(a, i)
    ensures a < NodeCount(top)
    ensures Start(top, a) <= Start(top, i) && End(top, i) <= End(top, a)
    decreases i
  {
    UnderOrder(a, i);
    if a != i {
      UnderInside(top, a, Parent(i));
      ChildSize(top, i);
    }
  }

  /** Stretches of two nodes meet exactly when one node is above the other. */
  lemma {:induction false} DisjointIffUnrelated(top: nat, i: nat, j: nat)
    requires i < NodeCount(top) && j < NodeCount(top)
    ensures Disjoint(top, i, j) <==> !Under(i, j) && !Under(j, i)
  {
    if Under(i, j) {
      UnderInside(top, i, j);
    } else if Under(j, i) {
      UnderInside(top, j, i);
    } else if Depth(i) <= Depth(j) {
      UnrelatedDisjoint(top, i, j);
    } else {
      UnrelatedDisjoint(top, j, i);
    }
  }

  lemma {:induction false} UnrelatedDisjoint(top: nat, i: nat, j: nat)
    requires i < NodeCount(top) && j < NodeCount(top)
    requires Depth(i) <= Depth(j) && !Under(i, j) && !Under(j, i)
    ensures Disjoint(top, i, j)
    decreases j
  {
    if Depth(i) == Depth(j) {
      SameLevelOrder(top, if i < j then i else j, if i < j then j else i);
    } else {
      var p := Parent(j);
      if Under(p, i) {
        UnderOrder(p, i);
      }
      if Under(i, p) {
        UnderOrder(i, p);
      }
      UnrelatedDisjoint(top, i, p);
      assert Under(p, j);
      UnderInside(top, p, j);
    }
  }

  lemma {:induction false} SameLevelOrder(top: nat, i: nat, j: nat)
    requires i < j < NodeCount(top) && Depth(i) == Depth(j)
    ensures End(top, i) <= Start(top, j)
    decreases j
  {
    var p, q := Parent(i), Parent(j);
    assert Depth(i) == 1 + Depth(p) && Depth(j) == 1 + Depth(q);
    ChildSize(top, i);
    ChildSize(top, j);
    StartInParent(top, i);
    StartInParent(top, j);
    hide Pow2, Size, Depth, Start;
    if p < q {
      SameLevelOrder(top, p, q);
    } else {
      assert p == q && i == Left(p) && j == Right(p);
    }
  }

  lemma {:induction false} StartInParent(top: nat, i: nat)
    requires 0 < i < NodeCount(top)
    ensures Start(top, i) == Start(top, Parent(i)) + if i == Left(Parent(i)) then 0 else Size(top, i)
  {
  }

  /** How many nodes of i's own level come before it. */
  function Position(i: nat): int {
    i + 1 - Pow2(Depth(i))
  }

  lemma {:induction false} DepthOfChild(p: nat)
    ensures Depth(Left(p)) == Depth(p) + 1 == Depth(Right(p))
  {
    assert Parent(Left(p)) == p == Parent(Right(p));
  }

  lemma {:induction false} PositionOfChild(p: nat)
    ensures Position(Left(p)) == 2 * Position(p)
    ensures Position(Right(p)) == 2 * Position(p) + 1
  {
    DepthOfChild(p);
    hide Depth;
    var d := Depth(p);
    assert Pow2(d + 1) == 2 * Pow2(d);
  }

  /** The closed form the kernel computes: index within the level times block size. */
  lemma {:induction false} StartClosedForm(top: nat, i: nat)
    requires i < NodeCount(top)
    ensures Start(top, i) == Shl(Position(i), Level(top, i))
  {
    if i == 0 {
      ShlOne(top);
    } else {
      var p := Parent(i);
      StartClosedForm(top, p);
      ChildSize(top, i);
      PositionOfChild(p);
      ShlChild(Position(p), Level(top, i));
    }
  }

  lemma {:induction false} ShlChild(k: int, n: nat)
    ensures Shl(2 * k, n) == Shl(k, n + 1)
    ensures Shl(2 * k + 1, n) == Shl(k, n + 1) + Pow2(n)
  {
    ShlOne(n);
    ShlAdds(k, k, n);
    ShlAdds(2 * k, 1, n);
  }

  /** Every node lies inside the heap. */
  lemma {:induction false} InsideHeap(top: nat, i: nat)
    requires i < NodeCount(top)
    ensures End(top, i) <= Pow2(top)
  {
    RootIsAbove(i);
    UnderInside(top, 0, i);
  }
}
