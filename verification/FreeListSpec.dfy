/** The free-list allocator on values: an address-sorted sequence of free blocks and the
    set of blocks handed out. */
module FreeListSpec {

  const HEADER := 16       // sizeof(MemoryBlock)
  const MIN_SPLIT := 32    // HEAP_MINIMUM_BLOCK_SIZE

  datatype Block = Block(addr: nat, size: nat) {
    function End(): nat { addr + size }

    predicate Has(p: int) { addr <= p < addr + size }

    predicate Apart(b: Block) { End() <= b.addr || b.End() <= addr }
  }

  /** Strictly sorted, with a gap between neighbours: no two free blocks touch. */
  ghost predicate Sorted(free: seq<Block>) {
    forall i, j :: 0 <= i < j < |free| ==> free[i].End() < free[j].addr
  }

  /** A block lies in the heap, is aligned, and has room for its header. */
  ghost predicate FitsHeap(lo: nat, hi: nat, b: Block) {
    lo <= b.addr && b.End() <= hi && b.size >= HEADER && b.addr % 8 == 0 && b.size % 8 == 0
  }

  ghost predicate Covered(blocks: set<Block>, p: int) {
    exists b :: b in blocks && b.Has(p)
  }

  /** The blocks cut the heap [lo, hi) into aligned pieces: no byte is in two of them
      and every byte is in one. */
  ghost predicate Partition(lo: nat, hi: nat, blocks: set<Block>) {
    && (forall b :: b in blocks ==> FitsHeap(lo, hi, b))
    && (forall a, b :: a in blocks && b in blocks && a != b ==> a.Apart(b))
    && (forall p :: lo <= p < hi ==> Covered(blocks, p))
  }

  ghost function Blocks(free: seq<Block>, live: set<Block>): set<Block> {
    (set b | b in free) + live
  }

  /** What holds between any two calls. */
  ghost predicate HeapOk(lo: nat, hi: nat, free: seq<Block>, live: set<Block>) {
    && Sorted(free)
    && (forall b :: b in live ==> b !in free)
    && Partition(lo, hi, Blocks(free, live))
  }

  /** Headers never overlap: each block's lies inside it, so apart from every other block's, and
      below the end marker. */
  lemma {:induction false} HeadersApart(lo: nat, hi: nat, free: seq<Block>, live: set<Block>, a: Block, b: Block)
    requires HeapOk(lo, hi, free, live) && a in Blocks(free, live) && b in Blocks(free, live)
    ensures lo <= a.addr && a.addr + HEADER <= hi
    ensures a != b ==> a.addr + HEADER <= b.addr || b.addr + HEADER <= a.addr
  {
    assert FitsHeap(lo, hi, a) && FitsHeap(lo, hi, b);
    assert a == b || a.Apart(b);
  }

  // ----- inserting a block, with coalescing on both sides -----

  /** How many free blocks lie below an address. */
  function Below(free: seq<Block>, addr: nat): (k: nat)
    ensures k <= |free|
    ensures k < |free| ==> free[k].addr >= addr
    ensures forall i :: 0 <= i < k ==> free[i].addr < addr
  {
    if free == [] || free[0].addr >= addr then 0 else 1 + Below(free[1..], addr)
  }

  predicate JoinsLeft(free: seq<Block>, b: Block) {
    var k := Below(free, b.addr);
    k > 0 && free[k - 1].End() == b.addr
  }

  predicate JoinsRight(free: seq<Block>, b: Block) {
    var k := Below(free, b.addr);
    k < |free| && b.End() == free[k].addr
  }

  function Join(a: Block, b: Block): Block {
    Block(a.addr, a.size + b.size)
  }

  function JoinAt(free: seq<Block>, i: nat): seq<Block>
    requires i + 1 < |free|
  {
    free[..i] + [Join(free[i], free[i + 1])] + free[i + 2..]
  }

  function PlaceAt(free: seq<Block>, k: nat, b: Block): seq<Block>
    requires k <= |free|
  {
    free[..k] + [b] + free[k..]
  }

  /** One block in place of the stretch i..j of the list. */
  function ReplaceRange(free: seq<Block>, i: nat, d: Block, j: nat): seq<Block>
    requires i <= |free| && j <= |free|
  {
    free[..i] + [d] + free[j..]
  }

  /** The list after insert_block: the block in its place by address, joined with the
      neighbours it touches. */
  function Insert(free: seq<Block>, b: Block): seq<Block> {
    var k := Below(free, b.addr);
    var placed := PlaceAt(free, k, b);
    if JoinsLeft(free, b) then
      var left := JoinAt(placed, k - 1);
      if JoinsRight(free, b) then JoinAt(left, k - 1) else left
    else if JoinsRight(free, b) then JoinAt(placed, k) else placed
  }

  lemma {:induction false} BelowUnique(free: seq<Block>, addr: nat, k: nat)
    requires k <= |free|
    requires k < |free| ==> free[k].addr >= addr
    requires forall i :: 0 <= i < k ==> free[i].addr < addr
    ensures Below(free, addr) == k
  {
  }

  // ----- partitions under splitting and joining -----

  lemma {:induction false} JoinKeepsPartition(lo: nat, hi: nat, blocks: set<Block>, a: Block, b: Block)
    requires Partition(lo, hi, blocks) && a in blocks && b in blocks && a.End() == b.addr
    ensures Partition(lo, hi, blocks - {a, b} + {Block(a.addr, a.size + b.size)})
  {
    var whole := Block(a.addr, a.size + b.size);
    var after := blocks - {a, b} + {whole};
    assert FitsHeap(lo, hi, a) && FitsHeap(lo, hi, b);
    forall p | lo <= p < hi
      ensures Covered(after, p)
    {
      assert Covered(blocks, p);
      var c :| c in blocks && c.Has(p);
      assert if c == a || c == b then whole.Has(p) else c in after;
    }
    forall c, d | c in after && d in after && c != d
      ensures c.Apart(d)
    {
      assert c != whole ==> c.Apart(a) && c.Apart(b);
      assert d != whole ==> d.Apart(a) && d.Apart(b);
    }
  }

  lemma {:induction false} SplitKeepsPartition(lo: nat, hi: nat, blocks: set<Block>, whole: Block, a: Block, b: Block)
    requires Partition(lo, hi, blocks) && whole in blocks
    requires a.addr == whole.addr && a.End() == b.addr && b.End() == whole.End()
    requires a.size >= HEADER && b.size >= HEADER && a.size % 8 == 0
    ensures Partition(lo, hi, blocks - {whole} + {a, b})
  {
    hide Covered, FitsHeap;
    var after := blocks - {whole} + {a, b};
    SplitFits(lo, hi, whole, a, b);
    forall p | lo <= p < hi
      ensures Covered(after, p)
    {
      SplitCovers(blocks, whole, a, b, p);
    }
    forall c, d | c in after && d in after && c != d
      ensures c.Apart(d)
    {
      assert c in blocks ==> c != whole && c.Apart(whole);
      assert d in blocks ==> d != whole && d.Apart(whole);
    }
  }

  lemma {:induction false} SplitFits(lo: nat, hi: nat, whole: Block, a: Block, b: Block)
    requires FitsHeap(lo, hi, whole)
    requires a.addr == whole.addr && a.End() == b.addr && b.End() == whole.End()
    requires a.size >= HEADER && b.size >= HEADER && a.size % 8 == 0
    ensures FitsHeap(lo, hi, a) && FitsHeap(lo, hi, b) && b.addr > a.addr
  {
  }

  lemma {:induction false} SplitCovers(blocks: set<Block>, whole: Block, a: Block, b: Block, p: int)
    requires a.addr == whole.addr && a.End() == b.addr && b.End() == whole.End() && Covered(blocks, p)
    ensures Covered(blocks - {whole} + {a, b}, p)
  {
    var after := blocks - {whole} + {a, b};
    var c :| c in blocks && c.Has(p);
    assert a in after && b in after;
    assert if c == whole then a.Has(p) || b.Has(p) else c in after;
  }

  // ----- releasing a block -----

  ghost predicate Ordered(free: seq<Block>) {
    forall i, j :: 0 <= i < j < |free| ==> free[i].End() <= free[j].addr
  }

  /** HeapOk, except that neighbouring free blocks may still touch. */
  ghost predicate Loose(lo: nat, hi: nat, free: seq<Block>, live: set<Block>) {
    && Ordered(free)
    && (forall b :: b in live ==> b !in free)
    && Partition(lo, hi, Blocks(free, live))
  }

  lemma {:induction false} LooseFits(lo: nat, hi: nat, free: seq<Block>, live: set<Block>)
    requires Loose(lo, hi, free, live)
    ensures forall i :: 0 <= i < |free| ==> FitsHeap(lo, hi, free[i])
    ensures forall b :: b in live ==> FitsHeap(lo, hi, b)
    ensures forall i, b :: 0 <= i < |free| && b in live ==> free[i].Apart(b)
  {
    forall i | 0 <= i < |free|
      ensures free[i] in Blocks(free, live)
    {
    }
    forall b | b in live
      ensures b in Blocks(free, live)
    {
    }
  }

  lemma {:induction false} OkFits(lo: nat, hi: nat, free: seq<Block>, live: set<Block>)
    requires HeapOk(lo, hi, free, live)
    ensures Sorted(free)
    ensures forall i :: 0 <= i < |free| ==> FitsHeap(lo, hi, free[i])
    ensures forall b :: b in live ==> FitsHeap(lo, hi, b)
    ensures forall i, b :: 0 <= i < |free| && b in live ==> free[i].Apart(b)
  {
    LooseFits(lo, hi, free, live);
  }

  /** Joining two free neighbours that touch. */
  lemma {:induction false} JoinAtLoose(lo: nat, hi: nat, free: seq<Block>, live: set<Block>, i: nat)
    requires Loose(lo, hi, free, live)
    requires i + 1 < |free| && free[i].End() == free[i + 1].addr
    ensures Loose(lo, hi, JoinAt(free, i), live)
  {
    hide Ordered, JoinAt;
    LooseFits(lo, hi, free, live);
    var first, whole := free[i], Join(free[i], free[i + 1]);
    JoinKeepsPartition(lo, hi, Blocks(free, live), first, free[i + 1]);
    JoinAtOrdered(free, i);
    assert whole !in live by {
      assert first.Apart(whole) <==> first.size == 0 || free[i + 1].size + first.size == 0;
    }
    JoinAtBlocks(free, live, i);
  }

  lemma {:induction false} JoinAtOrdered(free: seq<Block>, i: nat)
    requires Ordered(free)
    requires i + 1 < |free| && free[i].End() == free[i + 1].addr
    ensures Ordered(JoinAt(free, i))
  {
  }

  lemma {:induction false} JoinAtBlocks(free: seq<Block>, live: set<Block>, i: nat)
    requires Ordered(free) && i + 1 < |free|
    requires forall k :: 0 <= k < |free| ==> free[k].size > 0
    requires forall b :: b in live ==> b !in free
    ensures Blocks(JoinAt(free, i), live)
         == Blocks(free, live) - {free[i], free[i + 1]} + {Join(free[i], free[i + 1])}
    ensures forall b :: b in JoinAt(free, i) ==> b in free || b == Join(free[i], free[i + 1])
  {
    var a, b := free[i], free[i + 1];
    var left, right := free[..i], free[i + 2..];
    assert free == left + [a, b] + right;
    assert a !in left && a !in right && b !in left && b !in right;
    assert a !in live && b !in live;
  }

  /** Where a live block goes in the free list. */
  lemma {:induction false} PlaceOrder(lo: nat, hi: nat, free: seq<Block>, live: set<Block>, b: Block)
    requires HeapOk(lo, hi, free, live) && b in live
    ensures FitsHeap(lo, hi, b) && forall i :: 0 <= i < |free| ==> FitsHeap(lo, hi, free[i])
    ensures var k := Below(free, b.addr);
      && (forall i :: 0 <= i < k ==> free[i].End() <= b.addr)
      && (forall i: nat :: i + 1 < k ==> free[i].End() < b.addr)
      && (forall i :: k <= i < |free| ==> b.End() <= free[i].addr)
      && (forall i :: k < i < |free| ==> b.End() < free[i].addr)
  {
    LooseFits(lo, hi, free, live);
    var k := Below(free, b.addr);
    forall i | k <= i < |free|
      ensures b.End() <= free[i].addr && (i > k ==> b.End() < free[i].addr)
    {
      assert free[i].Apart(b);
      if i > k { assert free[k].Apart(b) && free[k].End() < free[i].addr; }
    }
    forall i: nat | i < k
      ensures free[i].End() <= b.addr && (i + 1 < k ==> free[i].End() < b.addr)
    {
      assert free[i].Apart(b);
      if i + 1 < k { assert free[i].End() < free[k - 1].addr; }
    }
  }

  lemma {:induction false} PlaceAtLoose(lo: nat, hi: nat, free: seq<Block>, live: set<Block>, b: Block)
    requires HeapOk(lo, hi, free, live) && b in live
    ensures Loose(lo, hi, PlaceAt(free, Below(free, b.addr), b), live - {b})
  {
    var k := Below(free, b.addr);
    PlaceOrder(lo, hi, free, live, b);
    PlaceAtOrdered(free, k, b);
    PlaceAtBlocks(free, live, k, b);
    hide Partition, FitsHeap, Ordered, Sorted, Below;
  }

  lemma {:induction false} PlaceAtBlocks(free: seq<Block>, live: set<Block>, k: nat, b: Block)
    requires k <= |free| && b in live && forall c :: c in live ==> c !in free
    ensures Blocks(PlaceAt(free, k, b), live - {b}) == Blocks(free, live)
    ensures forall c :: c in live - {b} ==> c !in PlaceAt(free, k, b)
  {
    var placed := PlaceAt(free, k, b);
    assert forall c :: c in placed <==> c == b || c in free by {
      assert free == free[..k] + free[k..];
    }
  }

  lemma {:induction false} PlaceAtOrdered(free: seq<Block>, k: nat, b: Block)
    requires k <= |free| && Ordered(free)
    requires forall i :: 0 <= i < k ==> free[i].End() <= b.addr
    requires forall i :: k <= i < |free| ==> b.End() <= free[i].addr
    ensures Ordered(PlaceAt(free, k, b))
  {
  }

  /** Giving a live block back, with coalescing, keeps the heap in order. */
  lemma {:induction false} InsertOk(lo: nat, hi: nat, free: seq<Block>, live: set<Block>, b: Block)
    requires HeapOk(lo, hi, free, live) && b in live
    ensures HeapOk(lo, hi, Insert(free, b), live - {b})
  {
    PlaceAtLoose(lo, hi, free, live, b);
    var k := Below(free, b.addr);
    var placed := PlaceAt(free, k, b);
    if JoinsLeft(free, b) {
      JoinAtLoose(lo, hi, placed, live - {b}, k - 1);
      if JoinsRight(free, b) {
        JoinAtLoose(lo, hi, JoinAt(placed, k - 1), live - {b}, k - 1);
      }
    } else if JoinsRight(free, b) {
      JoinAtLoose(lo, hi, placed, live - {b}, k);
    }
    InsertSorted(lo, hi, free, live, b);
  }

  /** The stretch of the list that the inserted block replaces, and what replaces it. */
  function From(free: seq<Block>, b: Block): nat {
    if JoinsLeft(free, b) then Below(free, b.addr) - 1 else Below(free, b.addr)
  }

  function To(free: seq<Block>, b: Block): nat {
    if JoinsRight(free, b) then Below(free, b.addr) + 1 else Below(free, b.addr)
  }

  function Merged(free: seq<Block>, b: Block): Block {
    var k := Below(free, b.addr);
    var c := if JoinsLeft(free, b) then Join(free[k - 1], b) else b;
    if JoinsRight(free, b) then Join(c, free[k]) else c
  }

  /** The list insert_block leaves, spelled out. */
  lemma {:induction false} InsertForm(free: seq<Block>, b: Block)
    ensures From(free, b) <= To(free, b) <= |free|
    ensures Insert(free, b) == ReplaceRange(free, From(free, b), Merged(free, b), To(free, b))
  {
    var k := Below(free, b.addr);
    var right := free[k..];
    hide Below;
    if JoinsLeft(free, b) {
      var left := free[..k - 1];
      assert PlaceAt(free, k, b) == left + [free[k - 1], b] + right;
      JoinInside(left, free[k - 1], b, right);
      if JoinsRight(free, b) {
        assert left + [Join(free[k - 1], b)] + right == left + [Join(free[k - 1], b), free[k]] + free[k + 1..];
        JoinInside(left, Join(free[k - 1], b), free[k], free[k + 1..]);
      }
    } else if JoinsRight(free, b) {
      assert PlaceAt(free, k, b) == free[..k] + [b, free[k]] + free[k + 1..];
      JoinInside(free[..k], b, free[k], free[k + 1..]);
    }
  }

  lemma {:induction false} JoinInside(left: seq<Block>, a: Block, b: Block, right: seq<Block>)
    ensures JoinAt(left + [a, b] + right, |left|) == left + [Join(a, b)] + right
  {
    var list := left + [a, b] + right;
    assert list[..|left|] == left && list[|left| + 2..] == right;
  }

  lemma {:induction false} InsertSorted(lo: nat, hi: nat, free: seq<Block>, live: set<Block>, b: Block)
    requires HeapOk(lo, hi, free, live) && b in live
    ensures Sorted(Insert(free, b))
  {
    InsertForm(free, b);
    MergedGaps(lo, hi, free, live, b);
    assert Sorted(free);
    hide HeapOk, Insert, From, To, Merged, Sorted;
    ReplaceSorted(free, From(free, b), Merged(free, b), To(free, b));
  }

  /** The merged block touches no neighbour any more. */
  lemma {:induction false} MergedGaps(lo: nat, hi: nat, free: seq<Block>, live: set<Block>, b: Block)
    requires HeapOk(lo, hi, free, live) && b in live
    ensures From(free, b) <= To(free, b) <= |free|
    ensures forall m :: 0 <= m < From(free, b) ==> free[m].End() < Merged(free, b).addr
    ensures forall m :: To(free, b) <= m < |free| ==> Merged(free, b).End() < free[m].addr
  {
    hide Partition, FitsHeap, Below, Blocks;
    PlaceOrder(lo, hi, free, live, b);
    var k := Below(free, b.addr);
    if JoinsLeft(free, b) {
      assert Merged(free, b).addr == free[k - 1].addr;
    }
    if JoinsRight(free, b) {
      assert Merged(free, b).End() == free[k].End();
    } else {
      assert Merged(free, b).End() == b.End();
    }
  }

  /** Putting one block in place of a stretch of the list. */
  lemma {:induction false} ReplaceSorted(free: seq<Block>, i: nat, d: Block, j: nat)
    requires Sorted(free) && i <= j <= |free|
    requires forall m :: 0 <= m < i ==> free[m].End() < d.addr
    requires forall m :: j <= m < |free| ==> d.End() < free[m].addr
    ensures Sorted(ReplaceRange(free, i, d, j))
  {
  }

  // ----- taking a block -----

  /** The first block, in address order, that holds the request; |free| when none does. */
  function FirstFit(free: seq<Block>, need: nat): (k: nat)
    ensures k <= |free|
    ensures k < |free| ==> free[k].size >= need
    ensures forall i :: 0 <= i < k ==> free[i].size < need
  {
    if free == [] || free[0].size >= need then 0 else 1 + FirstFit(free[1..], need)
  }

  function Without(free: seq<Block>, k: nat): seq<Block>
    requires k < |free|
  {
    free[..k] + free[k + 1..]
  }

  predicate Splits(b: Block, need: nat) {
    b.size - need > MIN_SPLIT
  }

  /** The part of a free block that is handed out. */
  function Taken(b: Block, need: nat): Block {
    if Splits(b, need) then Block(b.addr, need) else b
  }

  function Leftover(b: Block, need: nat): Block
    requires b.size >= need
  {
    Block(b.addr + need, b.size - need)
  }

  /** The part that stays free. */
  function Rest(b: Block, need: nat): seq<Block> {
    if Splits(b, need) then [Leftover(b, need)] else []
  }

  function Carve(free: seq<Block>, k: nat, need: nat): seq<Block>
    requires k < |free|
  {
    free[..k] + Rest(free[k], need) + free[k + 1..]
  }

  /** A block is cut exactly when more than 32 bytes are left over: then what is handed out is what was
      asked for, and the rest stays free; otherwise the whole block goes. */
  lemma {:induction false} CutWhenWorth(free: seq<Block>, k: nat, need: nat)
    requires k < |free| && free[k].size >= need
    ensures var b, taken, after := free[k], Taken(free[k], need), Carve(free, k, need);
      var cut := b.size > need + 32;
      && taken.addr == b.addr && taken.size == (if cut then need else b.size)
      && |after| == |free| - (if cut then 0 else 1)
      && (forall i :: 0 <= i < k ==> after[i] == free[i])
      && (cut ==> after[k].addr == taken.End() && after[k].End() == b.End())
      && (forall i :: k < i < |free| ==> after[if cut then i else i - 1] == free[i])
  {
  }

  lemma {:induction false} CarveSorted(free: seq<Block>, k: nat, need: nat)
    requires Sorted(free) && k < |free| && need > 0
    ensures Sorted(Carve(free, k, need))
  {
    var b := free[k];
    if Splits(b, need) {
      ReplaceSorted(free, k, Leftover(b, need), k + 1);
    } else {
      assert Carve(free, k, need) == free[..k] + free[k + 1..];
    }
  }

  lemma {:induction false} OnlyOnce(lo: nat, hi: nat, free: seq<Block>, live: set<Block>, k: nat)
    requires HeapOk(lo, hi, free, live) && k < |free|
    ensures free[k] !in free[..k] && free[k] !in free[k + 1..]
  {
    LooseFits(lo, hi, free, live);
  }

  /** Handing out the front of a free block keeps the heap in order. */
  lemma {:induction false} CarveOk(lo: nat, hi: nat, free: seq<Block>, live: set<Block>, k: nat, need: nat)
    requires HeapOk(lo, hi, free, live) && k < |free|
    requires need >= HEADER && need % 8 == 0 && free[k].size >= need
    ensures HeapOk(lo, hi, Carve(free, k, need), live + {Taken(free[k], need)})
    ensures Taken(free[k], need) !in live
  {
    hide Partition, Sorted;
    CarveSorted(free, k, need);
    var b, taken, rest := free[k], Taken(free[k], need), Rest(free[k], need);
    var left, right := free[..k], free[k + 1..];
    assert free == left + [b] + right;
    OnlyOnce(lo, hi, free, live, k);
    if Splits(b, need) {
      SplitKeepsPartition(lo, hi, Blocks(free, live), b, taken, rest[0]);
      CarvedIsNew(lo, hi, free, live, k, taken);
      CarvedIsNew(lo, hi, free, live, k, rest[0]);
      assert Blocks(left + rest + right, live + {taken}) == Blocks(free, live) - {b} + {taken, rest[0]};
    } else {
      assert Carve(free, k, need) == left + right;
      assert Blocks(left + right, live + {b}) == Blocks(free, live);
    }
  }

  /** A proper part of a free block is not itself a block yet. */
  lemma {:induction false} CarvedIsNew(lo: nat, hi: nat, free: seq<Block>, live: set<Block>, k: nat, part: Block)
    requires HeapOk(lo, hi, free, live) && k < |free|
    requires free[k].addr <= part.addr && part.End() <= free[k].End() && 0 < part.size < free[k].size
    ensures part !in Blocks(free, live)
  {
    var b := free[k];
    assert b in Blocks(free, live);
    assert !part.Apart(b);
  }

  // ----- conservation -----

  ghost function SizeOf(free: seq<Block>): nat {
    if free == [] then 0 else free[0].size + SizeOf(free[1..])
  }

  lemma {:induction false} SizeOfConcat(a: seq<Block>, b: seq<Block>)
    ensures SizeOf(a + b) == SizeOf(a) + SizeOf(b)
  {
    if a == [] {
      assert a + b == b;
    } else {
      assert (a + b)[1..] == a[1..] + b;
      SizeOfConcat(a[1..], b);
    }
  }

  lemma {:induction false} SizeOfCut(free: seq<Block>, i: nat, j: nat)
    requires i <= j <= |free|
    ensures SizeOf(free) == SizeOf(free[..i]) + SizeOf(free[i..j]) + SizeOf(free[j..])
  {
    assert free == free[..i] + free[i..j] + free[j..];
    SizeOfConcat(free[..i] + free[i..j], free[j..]);
    SizeOfConcat(free[..i], free[i..j]);
  }

  lemma {:induction false} SizeOfReplace(free: seq<Block>, i: nat, mid: seq<Block>, j: nat)
    requires i <= j <= |free|
    ensures SizeOf(free[..i] + mid + free[j..]) == SizeOf(free) - SizeOf(free[i..j]) + SizeOf(mid)
  {
    SizeOfCut(free, i, j);
    SizeOfConcat(free[..i] + mid, free[j..]);
    SizeOfConcat(free[..i], mid);
  }

  lemma {:induction false} JoinAtSize(free: seq<Block>, i: nat)
    requires i + 1 < |free|
    ensures SizeOf(JoinAt(free, i)) == SizeOf(free)
  {
    SizeOfReplace(free, i, [Join(free[i], free[i + 1])], i + 2);
    assert free[i..i + 2] == [free[i]] + [free[i + 1]];
    SizeOfConcat([free[i]], [free[i + 1]]);
  }

  /** Coalescing moves no byte in or out of the free list. */
  lemma {:induction false} InsertSize(free: seq<Block>, b: Block)
    ensures SizeOf(Insert(free, b)) == SizeOf(free) + b.size
  {
    var k := Below(free, b.addr);
    var placed := PlaceAt(free, k, b);
    SizeOfReplace(free, k, [b], k);
    if JoinsLeft(free, b) {
      JoinAtSize(placed, k - 1);
      if JoinsRight(free, b) {
        JoinAtSize(JoinAt(placed, k - 1), k - 1);
      }
    } else if JoinsRight(free, b) {
      JoinAtSize(placed, k);
    }
  }

  lemma {:induction false} CarveSize(free: seq<Block>, k: nat, need: nat)
    requires k < |free| && free[k].size >= need
    ensures SizeOf(Carve(free, k, need)) == SizeOf(free) - Taken(free[k], need).size
  {
    SizeOfReplace(free, k, Rest(free[k], need), k + 1);
    assert free[k..k + 1] == [free[k]];
  }

  lemma {:induction false} MemberSize(free: seq<Block>, k: nat)
    requires k < |free|
    ensures free[k].size <= SizeOf(free)
  {
    SizeOfCut(free, k, k + 1);
    assert free[k..k + 1] == [free[k]];
  }

  ghost function LiveSize(live: set<Block>): nat {
    if live == {} then 0 else
      var b :| b in live;
      b.size + LiveSize(live - {b})
  }

  lemma {:induction false} LiveSizeWithout(live: set<Block>, b: Block)
    requires b in live
    ensures LiveSize(live) == b.size + LiveSize(live - {b})
    decreases live
  {
    var c :| c in live && LiveSize(live) == c.size + LiveSize(live - {c});
    if c != b {
      LiveSizeWithout(live - {c}, b);
      LiveSizeWithout(live - {b}, c);
      assert live - {c} - {b} == live - {b} - {c};
    }
  }

  // ----- what the calls undo -----

  /** A block carved from the list and given straight back leaves the identical list. */
  lemma {:induction false} CarveThenInsert(lo: nat, hi: nat, free: seq<Block>, live: set<Block>, k: nat, need: nat)
    requires HeapOk(lo, hi, free, live) && k < |free|
    requires need > 0 && free[k].size >= need
    ensures Insert(Carve(free, k, need), Taken(free[k], need)) == free
  {
    OkFits(lo, hi, free, live);
    CarvePlace(free, k, need);
    var list, taken := Carve(free, k, need), Taken(free[k], need);
    InsertForm(list, taken);
    CarveMerged(free, k, need);
    Reassembled(list, To(list, taken), free, k);
    hide HeapOk, Carve, Insert, From, To, Merged, Sorted, Taken, JoinsLeft, JoinsRight, Below, FitsHeap, ReplaceRange;
  }

  lemma {:induction false} Reassembled(list: seq<Block>, j: nat, free: seq<Block>, k: nat)
    requires k < |free| && k <= |list| && j <= |list|
    requires list[..k] == free[..k] && list[j..] == free[k + 1..]
    ensures ReplaceRange(list, k, free[k], j) == free
  {
    assert free == free[..k] + [free[k]] + free[k + 1..];
  }

  /** Where the taken part of a block goes when it comes back. */
  lemma {:induction false} CarvePlace(free: seq<Block>, k: nat, need: nat)
    requires Sorted(free) && k < |free| && need > 0 && free[k].size >= need
    requires forall i :: 0 <= i < |free| ==> free[i].size > 0
    ensures var list, taken := Carve(free, k, need), Taken(free[k], need);
      Below(list, taken.addr) == k && !JoinsLeft(list, taken) && (JoinsRight(list, taken) <==> Splits(free[k], need))
  {
    var list, b := Carve(free, k, need), free[k];
    forall i | 0 <= i < k
      ensures list[i] == free[i] && list[i].End() < b.addr
    {
    }
    assert k < |list| ==> list[k] == if Splits(b, need) then Leftover(b, need) else free[k + 1];
    BelowUnique(list, b.addr, k);
    assert k > 0 ==> list[k - 1].End() < b.addr;
  }

  /** What comes back merges with the rest, if there is one, into the original block. */
  lemma {:induction false} CarveMerged(free: seq<Block>, k: nat, need: nat)
    requires k < |free| && need > 0 && free[k].size >= need
    requires var list, taken := Carve(free, k, need), Taken(free[k], need);
      Below(list, taken.addr) == k && !JoinsLeft(list, taken) && (JoinsRight(list, taken) <==> Splits(free[k], need))
    ensures var list, taken := Carve(free, k, need), Taken(free[k], need);
      && From(list, taken) == k <= To(list, taken) <= |list|
      && Merged(list, taken) == free[k]
      && list[..k] == free[..k] && list[To(list, taken)..] == free[k + 1..]
  {
    hide Below, JoinsLeft, JoinsRight;
    var list, b := Carve(free, k, need), free[k];
    if Splits(b, need) {
      assert list == free[..k] + Rest(b, need) + free[k + 1..];
      assert list[k] == Leftover(b, need);
    } else {
      assert list == free[..k] + free[k + 1..];
    }
  }

  /** mm_alloc puts the rest of a split block back through insert_block; that neither joins nor moves anything. */
  lemma {:induction false} InsertRest(lo: nat, hi: nat, free: seq<Block>, live: set<Block>, k: nat, need: nat)
    requires HeapOk(lo, hi, free, live) && k < |free| && need > 0 && Splits(free[k], need)
    ensures Insert(Without(free, k), Leftover(free[k], need)) == Carve(free, k, need)
  {
    OkFits(lo, hi, free, live);
    var list, rest := Without(free, k), Leftover(free[k], need);
    RestApart(free, k, need);
    InsertForm(list, rest);
    assert list[..k] == free[..k] && list[k..] == free[k + 1..];
    hide HeapOk, Sorted, FitsHeap, JoinsLeft, JoinsRight, Below, Insert;
  }

  lemma {:induction false} RestApart(free: seq<Block>, k: nat, need: nat)
    requires Sorted(free) && k < |free| && need > 0 && Splits(free[k], need)
    requires forall i :: 0 <= i < |free| ==> free[i].size > 0
    ensures var list, rest := Without(free, k), Leftover(free[k], need);
      Below(list, rest.addr) == k && !JoinsLeft(list, rest) && !JoinsRight(list, rest)
  {
    var list, rest := Without(free, k), Leftover(free[k], need);
    forall i | 0 <= i < |list|
      ensures if i < k then list[i].End() < rest.addr else rest.End() < list[i].addr
    {
      assert list[i] == free[if i < k then i else i + 1];
    }
    BelowUnique(list, rest.addr, k);
  }

  /** With nothing handed out, coalescing has left a single block: the whole heap. */
  lemma {:induction false} AllFreeIsOneBlock(lo: nat, hi: nat, free: seq<Block>)
    requires lo < hi && HeapOk(lo, hi, free, {})
    ensures free == [Block(lo, hi - lo)]
  {
    LooseFits(lo, hi, free, {});
    CoveredByFree(lo, hi, free, lo);
    assert forall i :: 0 < i < |free| ==> lo <= free[0].addr < free[0].End() < free[i].addr < hi;
    var first := free[0];
    assert first.addr == lo;
    if first.End() < hi {
      CoveredByFree(lo, hi, free, first.End());
      assert false;
    }
    var last := free[|free| - 1];
    assert FitsHeap(lo, hi, last);
  }

  lemma {:induction false} CoveredByFree(lo: nat, hi: nat, free: seq<Block>, p: nat)
    requires HeapOk(lo, hi, free, {}) && lo <= p < hi
    ensures exists i :: 0 <= i < |free| && free[i].Has(p)
  {
    assert Covered(Blocks(free, {}), p);
    var b :| b in Blocks(free, {}) && b.Has(p);
    assert b in free;
  }

  /** Releasing a sequence of blocks one after the other. */
  ghost function InsertAll(free: seq<Block>, order: seq<Block>): seq<Block>
    decreases |order|
  {
    if order == [] then free else InsertAll(Insert(free, order[0]), order[1..])
  }

  /** Whatever the order in which the live blocks are released, the heap ends as it began. */
  lemma {:induction false} ReleaseAllInAnyOrder(lo: nat, hi: nat, free: seq<Block>, live: set<Block>, order: seq<Block>)
    requires lo < hi && HeapOk(lo, hi, free, live)
    requires forall b :: b in order <==> b in live
    requires forall i, j :: 0 <= i < j < |order| ==> order[i] != order[j]
    ensures InsertAll(free, order) == [Block(lo, hi - lo)]
    decreases |order|
  {
    if order == [] {
      assert live == {};
      AllFreeIsOneBlock(lo, hi, free);
    } else {
      InsertOk(lo, hi, free, live, order[0]);
      ReleaseAllInAnyOrder(lo, hi, Insert(free, order[0]), live - {order[0]}, order[1..]);
    }
  }
}
