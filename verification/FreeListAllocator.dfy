/** The free-list allocator: block headers in memory, linked by address and rewritten in place. */
module FreeListAllocator {
  import opened FreeListSpec

  const NULL := 0
  const WORD := 0x1_0000_0000_0000_0000
  const ALLOCATED_BIT := 0x8000_0000_0000_0000

  /** A MemoryBlock; `inUse` is the top bit of block_size. */
  datatype Header = Header(next: nat, blockSize: nat, inUse: bool)

  /** The list as the kernel walks it: element 0 is start_block, element i the free block i - 1. */
  ghost function Elem(start: nat, free: seq<Block>, i: nat): nat
    requires i <= |free|
  {
    if i == 0 then start else free[i - 1].addr
  }

  /** What element i points to: the free block i, or end_block after the last. */
  ghost function After(free: seq<Block>, end: nat, i: nat): nat {
    if i < |free| then free[i].addr else end
  }

  ghost predicate Linked(mem: map<nat, Header>, start: nat, free: seq<Block>, end: nat) {
    && start in mem && mem[start].blockSize == 0
    && end in mem && mem[end] == Header(NULL, 0, false)
    && (forall i: nat :: i <= |free| ==>
          Elem(start, free, i) in mem && mem[Elem(start, free, i)].next == After(free, end, i))
    && (forall i :: 0 <= i < |free| ==>
          free[i].addr in mem
          && mem[free[i].addr].blockSize == free[i].size && !mem[free[i].addr].inUse)
  }

  /** Exactly the live blocks are marked as in use. */
  ghost predicate Marked(mem: map<nat, Header>, live: set<Block>) {
    && (forall b :: b in live ==> b.addr in mem && mem[b.addr] == Header(NULL, b.size, true))
    && (forall a :: a in mem && mem[a].inUse ==> IsLiveAt(live, a))
  }

  ghost predicate IsLiveAt(live: set<Block>, a: nat) {
    exists b :: b in live && b.addr == a
  }

  ghost predicate NoNewMarks(before: map<nat, Header>, after: map<nat, Header>) {
    forall a :: a in after && after[a].inUse ==> a in before && before[a].inUse
  }

  /** The size a request is rounded to: header added, then the next multiple of 8. */
  function Rounded(size: nat): (r: nat)
    ensures r % 8 == 0 && size + HEADER <= r < size + HEADER + 8
  {
    (size + HEADER + 7) / 8 * 8
  }

  /** Clearing the low three bits of an address. */
  function AlignDown(x: nat): (r: nat)
    ensures r % 8 == 0 && r <= x < r + 8
  {
    x - x % 8
  }

  /** What a successful mm_alloc does: the first free block that holds the request is cut to
      size, by at most 32 bytes too many, and moves to the live blocks. */
  ghost predicate HandedOut(free: seq<Block>, live: set<Block>, need: nat, ptr: nat, free': seq<Block>,
                            live': set<Block>) {
    var k := FirstFit(free, need);
    k < |free|
    && var taken := Taken(free[k], need);
      && ptr == taken.addr + HEADER
      && need <= taken.size <= need + MIN_SPLIT
      && free' == Carve(free, k, need)
      && live' == live + {taken} && taken !in live
  }

  class FreeList {
    const startBlock: nat
    const base: nat
    const endBlock: nat
    const totalMem: nat
    var mem: map<nat, Header>
    var usedMem: int
    var memChunks: int
    ghost var free: seq<Block>
    ghost var live: set<Block>

    ghost predicate Valid()
      reads this
    {
      && 0 < startBlock && startBlock + HEADER <= base < endBlock < ALLOCATED_BIT
      && totalMem == endBlock - base
      && HeapOk(base, endBlock, free, live)
      && Linked(mem, startBlock, free, endBlock)
      && Marked(mem, live)
      && usedMem == LiveSize(live)
      && usedMem + SizeOf(free) == totalMem
      && memChunks == |live|
    }

    /** mm_init on a region that holds at least one block besides the end marker. */
    constructor (startBlock: nat, startAddress: nat, size: nat)
      requires 0 < startBlock && startBlock + HEADER <= startAddress
      requires size >= 48 && startAddress + size < ALLOCATED_BIT
      ensures Valid() && live == {} && usedMem == 0 && memChunks == 0
      ensures this.startBlock == startBlock
      ensures startAddress <= base < startAddress + 8 && base % 8 == 0 && endBlock % 8 == 0
      ensures startAddress + size - 8 < endBlock + HEADER <= startAddress + size
      ensures free == [Block(base, totalMem)]
    {
      hide HeapOk, SizeOf, LiveSize, AlignDown;
      var trueStart, totalHeapSize := startAddress, size;
      if trueStart % 8 != 0 {
        trueStart := trueStart + 7;
        trueStart := AlignDown(trueStart);
        totalHeapSize := totalHeapSize - (trueStart - startAddress);
      }
      var end := trueStart + totalHeapSize - HEADER;
      end := AlignDown(end);
      this.startBlock, base, endBlock, totalMem := startBlock, trueStart, end, end - trueStart;
      mem := map[startBlock := Header(trueStart, 0, false), end := Header(NULL, 0, false),
                 trueStart := Header(end, end - trueStart, false)];
      usedMem, memChunks := 0, 0;
      free, live := [Block(trueStart, end - trueStart)], {};
      new;
      OneBlockOk(base, endBlock);
    }

    /** First fit: the lowest-addressed free block that holds the rounded request is cut to size. */
    method Alloc(size: nat) returns (ptr: nat)
      requires Valid() && size < WORD
      modifies this
      ensures Valid()
      ensures ptr == 0 ==> mem == old(mem) && free == old(free) && live == old(live)
                           && usedMem == old(usedMem) && memChunks == old(memChunks)
      ensures ptr == 0 <==> size == 0 || size >= ALLOCATED_BIT || FirstFit(old(free), Rounded(size)) == |old(free)|
      ensures ptr != 0 ==> HandedOut(old(free), old(live), Rounded(size), ptr, free, live)
    {
      hide HeapOk, LiveSize, SizeOf, Carve, FirstFit, Rounded;
      ptr := 0;
      TopBit(size);
      if size / ALLOCATED_BIT % 2 == 0 {
        var need := RoundRequest(size);
        if need > 0 {
          NothingAboveTheSum(free, need);
          if need <= totalMem - usedMem {
            ptr := TakeFirstFit(need);
          }
        }
      }
    }

    /** The rounding of mm_alloc in size_t arithmetic; below the reserved bit nothing wraps. */
    method RoundRequest(size: nat) returns (need: nat)
      requires size < ALLOCATED_BIT
      ensures need == if size == 0 then 0 else Rounded(size)
    {
      var n: int := size;
      NoWrap(n + HEADER);
      NextMultiple(n + HEADER);
      NoWrap(n + HEADER + (8 - (n + HEADER) % 8));
      if n > 0 && (n + HEADER) % WORD > n {
        n := (n + HEADER) % WORD;
        if n % 8 != 0 {
          n := if (n + (8 - n % 8)) % WORD > n then (n + (8 - n % 8)) % WORD else 0;
        }
      } else {
        n := 0;
      }
      need := n;
    }

    /** The search loop of mm_alloc. */
    method FindFit(need: nat) returns (previous: nat, block: nat)
      requires Linked(mem, startBlock, free, endBlock) && need > 0 && endBlock != NULL
      requires forall i :: 0 <= i < |free| ==> free[i].addr != NULL
      ensures var k := FirstFit(free, need);
        previous == Elem(startBlock, free, k) && block == After(free, endBlock, k)
    {
      ghost var k := 0;
      previous := startBlock;
      assert Elem(startBlock, free, 0) == startBlock;
      block := mem[startBlock].next;
      while mem[block].blockSize < need && mem[block].next != NULL
        invariant k <= |free| && block in mem
        invariant previous == Elem(startBlock, free, k) && block == After(free, endBlock, k)
        invariant forall i :: 0 <= i < k ==> free[i].size < need
        decreases |free| - k
      {
        assert Elem(startBlock, free, k + 1) == block;
        previous := block;
        block := mem[block].next;
        k := k + 1;
      }
      assert k < |free| ==> Elem(startBlock, free, k + 1) == block;
      FirstFitUnique(free, need, k);
    }

    method TakeFirstFit(need: nat) returns (ptr: nat)
      requires Valid() && need > HEADER && need % 8 == 0
      modifies this
      ensures Valid()
      ensures ptr == 0 ==> FirstFit(free, need) == |free| && mem == old(mem) && free == old(free) && live == old(live)
                           && usedMem == old(usedMem) && memChunks == old(memChunks)
      ensures ptr != 0 ==> HandedOut(old(free), old(live), need, ptr, free, live)
    {
      hide HeapOk, Partition, Sorted, LiveSize, SizeOf, Carve;
      ghost var fs, lv := free, live;
      FreeInHeap(base, endBlock, fs, lv);
      ghost var k := FirstFit(fs, need);
      var previous, block := FindFit(need);
      ptr := 0;
      if block != endBlock {
        hide Linked, Marked, ListInHeap;
        ptr := TakeBlock(previous, block, need, fs, lv, k);
        usedMem := usedMem + mem[block].blockSize;
        memChunks := memChunks + 1;
        HandedSizes(base, endBlock, fs, lv, k, need);
        free, live := Carve(fs, k, need), lv + {Taken(fs[k], need)};
      }
    }

    /** Takes the block found off the list, cut to size, and marks it. */
    method TakeBlock(previous: nat, block: nat, need: nat, ghost fs: seq<Block>, ghost lv: set<Block>, ghost k: nat)
      returns (ptr: nat)
      requires Linked(mem, startBlock, fs, endBlock) && HeapOk(base, endBlock, fs, lv) && Marked(mem, lv)
      requires startBlock < base < endBlock
      requires k < |fs| && fs[k].size >= need > 0 && need % 8 == 0
      requires previous == Elem(startBlock, fs, k) && block == fs[k].addr
      modifies this`mem
      ensures Linked(mem, startBlock, Carve(fs, k, need), endBlock)
      ensures Marked(mem, lv + {Taken(fs[k], need)})
      ensures ptr == block + HEADER && block in mem && mem[block].blockSize == Taken(fs[k], need).size
    {
      FreeInHeap(base, endBlock, fs, lv);
      hide HeapOk, Partition, Sorted, Carve;
      ptr := mem[previous].next + HEADER;
      Cut(previous, block, need, fs, lv, k);
      CarveAvoids(fs, k, need);
      ghost var cut := mem;
      mem := mem[block := Header(NULL, mem[block].blockSize, true)];
      StillLinked(cut, mem, startBlock, Carve(fs, k, need), endBlock, block);
      HandedMarks(base, endBlock, startBlock, fs, lv, k, need, old(mem), mem);
    }

    /** Unlinks the block found and, when enough is left over, puts the rest back. */
    method Cut(previous: nat, block: nat, need: nat, ghost fs: seq<Block>, ghost lv: set<Block>, ghost k: nat)
      requires Linked(mem, startBlock, fs, endBlock) && HeapOk(base, endBlock, fs, lv)
      requires startBlock < base < endBlock
      requires k < |fs| && fs[k].size >= need > 0
      requires previous == Elem(startBlock, fs, k) && block == fs[k].addr
      modifies this`mem
      ensures Linked(mem, startBlock, Carve(fs, k, need), endBlock)
      ensures block in mem && mem[block].blockSize == Taken(fs[k], need).size
      ensures OutsideKept(old(mem), mem, startBlock, fs) && NoNewMarks(old(mem), mem)
    {
      hide HeapOk, Carve, Linked, OutsideKept, NoNewMarks, Without, Taken;
      NextOnList(mem, startBlock, base, endBlock, fs, lv, k);
      mem := mem[previous := mem[previous].(next := mem[block].next)];
      ghost var unlinked := mem;
      UnlinkKeeps(old(mem), mem, startBlock, base, endBlock, fs, lv, k);
      if mem[block].blockSize - need > MIN_SPLIT {
        PutRest(block, need, fs, lv, k);
        KeptTwice(old(mem), unlinked, mem, startBlock, fs);
        TakenSize(fs[k], need);
      } else {
        CarveWhole(fs, k, need);
        TakenSize(fs[k], need);
      }
    }

    /** The split of mm_alloc: the rest gets a header of its own and goes back on the list. */
    method PutRest(block: nat, need: nat, ghost fs: seq<Block>, ghost lv: set<Block>, ghost k: nat)
      requires HeapOk(base, endBlock, fs, lv) && startBlock < base < endBlock
      requires k < |fs| && need > 0 && Splits(fs[k], need) && block == fs[k].addr
      requires Linked(mem, startBlock, Without(fs, k), endBlock)
      requires block in mem && mem[block].blockSize == fs[k].size && !mem[block].inUse
      modifies this`mem
      ensures Linked(mem, startBlock, Carve(fs, k, need), endBlock)
      ensures block in mem && mem[block].blockSize == need
      ensures OutsideKept(old(mem), mem, startBlock, fs) && NoNewMarks(old(mem), mem)
    {
      hide HeapOk, Carve, Insert, InFree, OnList, ListInHeap, Linked, Without;
      var newBlockLink := block + need;
      mem := mem[newBlockLink := Header(NULL, mem[block].blockSize - need, false)];
      mem := mem[block := mem[block].(blockSize := need)];
      ghost var written, others, rest := mem, Without(fs, k), Leftover(fs[k], need);
      RestReady(old(mem), written, startBlock, base, endBlock, fs, lv, k, need);
      InsertBlock(newBlockLink, others, rest);
      RestKeepsOutside(old(mem), written, mem, startBlock, fs, others, block, newBlockLink);
    }

    /** Releases the block handed out at ptr. A null pointer, or one behind any other header ever
        written, whose block is free or has been joined to another since, changes nothing. */
    method Free(ptr: nat)
      requires Valid()
      requires ptr == 0 || (ptr >= HEADER && ptr - HEADER in mem)
      modifies this
      ensures Valid()
      ensures forall b :: b in old(live) && ptr == b.addr + HEADER ==>
                free == Insert(old(free), b) && live == old(live) - {b}
      ensures (forall b :: b in old(live) ==> ptr != b.addr + HEADER) ==>
                mem == old(mem) && free == old(free) && live == old(live)
                && usedMem == old(usedMem) && memChunks == old(memChunks)
      ensures mem.Keys == old(mem.Keys)
    {
      hide HeapOk, LiveSize, SizeOf, Insert;
      if ptr != 0 {
        var link := ptr - HEADER;
        if mem[link].inUse {
          assert IsLiveAt(live, link);
          ghost var b :| b in live && b.addr == link;
          LiveIsBlock(free, live, b);
          HeadOf(mem, startBlock, base, endBlock, free, live, b);
          if mem[link].next == NULL {
            GiveBack(link, b);
          }
        }
      }
    }

    /** The release of a live block, once its header has been recognised. */
    method GiveBack(link: nat, ghost b: Block)
      requires Valid() && b in live && b.addr == link
      modifies this
      ensures Valid() && free == Insert(old(free), b) && live == old(live) - {b}
      ensures mem.Keys == old(mem.Keys)
    {
      hide HeapOk, Partition, LiveSize, SizeOf, Insert, Blocks, FitsHeap, Sorted;
      ghost var fs, lv := free, live;
      LiveIsBlock(fs, lv, b);
      HeadOf(mem, startBlock, base, endBlock, fs, lv, b);
      mem := mem[link := mem[link].(inUse := false)];
      usedMem := usedMem - mem[link].blockSize;
      StillLinked(old(mem), mem, startBlock, fs, endBlock, link);
      FreeInHeap(base, endBlock, fs, lv);
      LiveInHeap(base, endBlock, fs, lv, b);
      InsertBlock(link, fs, b);
      memChunks := memChunks - 1;
      Returned(base, endBlock, startBlock, fs, lv, b, old(mem), mem);
      free, live := Insert(fs, b), lv - {b};
    }

    /** The loop of insert_block: the last chain element below the block. */
    method FindPlace(block: nat, ghost fs: seq<Block>) returns (walker: nat)
      requires Linked(mem, startBlock, fs, endBlock) && block < endBlock
      ensures walker == Elem(startBlock, fs, Below(fs, block))
    {
      ghost var k := 0;
      walker := startBlock;
      while mem[walker].next < block
        invariant k <= |fs| && walker == Elem(startBlock, fs, k)
        invariant forall i :: 0 <= i < k ==> fs[i].addr < block
        decreases |fs| - k
      {
        assert mem[walker].next == After(fs, endBlock, k);
        walker := mem[walker].next;
        k := k + 1;
      }
      assert After(fs, endBlock, k) >= block;
      BelowUnique(fs, block, k);
    }

    /** insert_block: the list fs is linked, the header of b is written, b lies apart from the list. */
    method InsertBlock(blockToInsert: nat, ghost fs: seq<Block>, ghost b: Block)
      requires startBlock < base < endBlock
      requires Linked(mem, startBlock, fs, endBlock) && ListInHeap(base, endBlock, fs)
      requires b.addr == blockToInsert && base <= b.addr && b.End() <= endBlock && b.size > 0
      requires b.addr in mem && mem[b.addr].blockSize == b.size && !mem[b.addr].inUse
      requires forall i :: 0 <= i < |fs| ==> fs[i].Apart(b)
      modifies this`mem
      ensures Linked(mem, startBlock, Insert(fs, b), endBlock)
      ensures mem.Keys == old(mem.Keys)
      ensures forall a :: a in mem && a != b.addr && a != startBlock && !OnList(fs, a)
                ==> mem[a] == old(mem[a])
      ensures NoNewMarks(old(mem), mem)
    {
      hide Insert, ReplaceRange, Below, Sorted, Linked, ListInHeap, OnList, JoinsLeft;
      var block := blockToInsert;
      ghost var k := Below(fs, block);
      InsertPlan(mem, startBlock, base, endBlock, fs, b);
      var walker := FindPlace(block, fs);
      if walker + mem[walker].blockSize == block {
        mem := mem[walker := mem[walker].(blockSize := mem[walker].blockSize + mem[block].blockSize)];
        block := walker;
        LinkIn(walker, block, old(mem), fs, k, k - 1, Join(fs[k - 1], b));
      } else {
        LinkIn(walker, block, old(mem), fs, k, k, b);
      }
    }

    /** The second half of insert_block: the block may absorb the element after it, and is linked in. */
    method LinkIn(walker: nat, block: nat, ghost before: map<nat, Header>,
                  ghost fs: seq<Block>, ghost k: nat, ghost i: nat, ghost c: Block)
      requires startBlock < base < endBlock
      requires Linked(before, startBlock, fs, endBlock) && ListInHeap(base, endBlock, fs)
      requires i <= k <= |fs| && walker == Elem(startBlock, fs, k)
      requires if walker == block then i + 1 == k else i == k && forall m :: 0 <= m < |fs| ==> fs[m].addr != block
      requires block == c.addr && base <= c.addr < endBlock
      requires mem.Keys >= before.Keys && forall a :: a in before && a != block ==> mem[a] == before[a]
      requires block in mem && mem[block].blockSize == c.size && !mem[block].inUse
      requires walker in mem && mem[walker].next == After(fs, endBlock, k)
      modifies this`mem
      ensures var joins := k < |fs| && c.End() == fs[k].addr;
        Linked(mem, startBlock,
               ReplaceRange(fs, i, if joins then Join(c, fs[k]) else c, if joins then k + 1 else k), endBlock)
      ensures mem.Keys == old(mem.Keys)
      ensures forall a :: a in mem && a != block && a != walker ==> mem[a] == old(mem[a])
      ensures NoNewMarks(old(mem), mem)
    {
      hide ReplaceRange, Linked, ListInHeap, Sorted;
      var next := mem[walker].next;
      ghost var was := mem;
      NextHeader(before, was, startBlock, base, endBlock, fs, k, block);
      AbsorbNext(block, next, fs, k, c);
      ghost var absorbed := mem[block];
      if walker != block {
        mem := mem[walker := mem[walker].(next := block)];
      }
      LinkedIn(before, was, mem, startBlock, base, endBlock, fs, k, i, c, absorbed);
    }

    method AbsorbNext(block: nat, next: nat, ghost fs: seq<Block>, ghost k: nat, ghost c: Block)
      requires k <= |fs| && next == After(fs, endBlock, k)
      requires block == c.addr && block in mem && mem[block].blockSize == c.size && !mem[block].inUse
      requires k < |fs| ==> fs[k].addr in mem && fs[k].addr != endBlock && mem[fs[k].addr].blockSize == fs[k].size
                            && mem[fs[k].addr].next == After(fs, endBlock, k + 1)
      modifies this`mem
      ensures var joins := k < |fs| && c.End() == fs[k].addr;
        mem == old(mem)[block := if joins then Header(After(fs, endBlock, k + 1), c.size + fs[k].size, false)
                                 else Header(next, c.size, false)]
    {
      if block + mem[block].blockSize == next {
        if next != endBlock {
          mem := mem[block := mem[block].(blockSize := mem[block].blockSize + mem[next].blockSize,
                                         next := mem[next].next)];
        } else {
          mem := mem[block := mem[block].(next := endBlock)];
        }
      } else {
        mem := mem[block := mem[block].(next := next)];
      }
    }
  }

  /** An allocation freed again leaves the list as it was, block for block. */
  method AllocThenFree(heap: FreeList, size: nat) returns (ptr: nat)
    requires heap.Valid() && size < WORD
    modifies heap
    ensures heap.Valid()
    ensures heap.free == old(heap.free) && heap.live == old(heap.live)
    ensures heap.usedMem == old(heap.usedMem) && heap.memChunks == old(heap.memChunks)
  {
    hide HeapOk, LiveSize, SizeOf, Carve, Insert, Taken, FirstFit, Rounded, Linked;
    ghost var fs, lv, need := heap.free, heap.live, Rounded(size);
    ptr := heap.Alloc(size);
    if ptr != 0 {
      ghost var k := FirstFit(fs, need);
      ghost var taken := Taken(fs[k], need);
      FitsFirst(fs, size);
      CarveThenInsert(heap.base, heap.endBlock, fs, lv, k, need);
      assert taken in Blocks(heap.free, heap.live) && taken in heap.live;
      heap.Free(ptr);
      assert heap.live == lv;
    }
  }

  /** Freeing every live block, in any order and with any number of repetitions, leaves the heap as
      mm_init made it: one free block of all memory, and nothing in use. */
  method FreeAll(heap: FreeList, ptrs: seq<nat>)
    requires heap.Valid()
    requires forall p :: p in ptrs ==> p == 0 || (p >= HEADER && p - HEADER in heap.mem)
    requires forall b :: b in heap.live ==> b.addr + HEADER in ptrs
    modifies heap
    ensures heap.Valid() && heap.live == {}
    ensures heap.free == [Block(heap.base, heap.totalMem)] && heap.usedMem == 0 && heap.memChunks == 0
  {
    hide HeapOk, LiveSize, SizeOf, Insert, Linked, Marked;
    var i := 0;
    while i < |ptrs|
      invariant 0 <= i <= |ptrs| && heap.Valid() && heap.mem.Keys == old(heap.mem.Keys)
      invariant forall b :: b in heap.live ==> b.addr + HEADER in ptrs[i..]
    {
      ghost var lv := heap.live;
      var p := ptrs[i];
      assert p in ptrs;
      assert p == 0 || p - HEADER in old(heap.mem).Keys;
      heap.Free(p);
      assert forall q :: q in ptrs[i..] <==> q == p || q in ptrs[i + 1..];
      assert heap.live <= lv;
      i := i + 1;
    }
    assert heap.live == {};
    NothingLive(heap.base, heap.endBlock, heap.free, heap.live);
  }

  lemma {:induction false} NothingLive(lo: nat, hi: nat, free: seq<Block>, live: set<Block>)
    requires lo < hi && HeapOk(lo, hi, free, live) && live == {}
    ensures free == [Block(lo, hi - lo)] && LiveSize(live) == 0
  {
    AllFreeIsOneBlock(lo, hi, free);
  }

  lemma {:induction false} FitsFirst(free: seq<Block>, size: nat)
    requires size > 0
    ensures Rounded(size) > 0
    ensures var k := FirstFit(free, Rounded(size)); k < |free| ==> free[k].size >= Rounded(size)
  {
  }

  /** The bookkeeping of a hand-out: the counters stay the sums they stand for. */
  lemma {:induction false} HandedSizes(lo: nat, hi: nat, free: seq<Block>, live: set<Block>, k: nat, need: nat)
    requires HeapOk(lo, hi, free, live)
    requires k < |free| && need >= HEADER && need % 8 == 0 && free[k].size >= need
    ensures HeapOk(lo, hi, Carve(free, k, need), live + {Taken(free[k], need)})
    ensures Taken(free[k], need) !in live
    ensures LiveSize(live + {Taken(free[k], need)}) == LiveSize(live) + Taken(free[k], need).size
    ensures SizeOf(Carve(free, k, need)) == SizeOf(free) - Taken(free[k], need).size
  {
    var taken := Taken(free[k], need);
    CarveOk(lo, hi, free, live, k, need);
    CarveSize(free, k, need);
    LiveSizeWithout(live + {taken}, taken);
    assert live + {taken} - {taken} == live;
  }

  /** A hand-out marks the block taken and leaves the marks of the other live blocks. */
  lemma {:induction false} HandedMarks(lo: nat, hi: nat, start: nat, free: seq<Block>, live: set<Block>,
                                       k: nat, need: nat,
                                       before: map<nat, Header>, mem: map<nat, Header>)
    requires HeapOk(lo, hi, free, live) && start < lo < hi
    requires k < |free| && Marked(before, live) && OutsideKept(before, mem, start, free)
    requires free[k].addr in mem && mem[free[k].addr] == Header(NULL, Taken(free[k], need).size, true)
    requires forall a :: a in mem && mem[a].inUse && a != free[k].addr ==> a in before && before[a].inUse
    ensures Marked(mem, live + {Taken(free[k], need)})
  {
    OkFits(lo, hi, free, live);
    forall a | a in mem && mem[a].inUse
      ensures IsLiveAt(live + {Taken(free[k], need)}, a)
    {
      if a == free[k].addr {
        assert Taken(free[k], need) in live + {Taken(free[k], need)};
      } else {
        assert IsLiveAt(live, a);
        var b :| b in live && b.addr == a;
        assert b in live + {Taken(free[k], need)};
      }
    }
    forall b | b in live
      ensures b.addr in before && !InFree(free, b.addr) && b.addr != start
    {
      assert forall i :: 0 <= i < |free| ==> free[i].Apart(b);
    }
  }

  /** The bookkeeping of a release, once the block is back on the list. */
  lemma {:induction false} Returned(lo: nat, hi: nat, start: nat, free: seq<Block>, live: set<Block>, b: Block,
                                  before: map<nat, Header>, mem: map<nat, Header>)
    requires HeapOk(lo, hi, free, live) && start < lo < hi && b in live
    requires Marked(before, live)
    requires mem.Keys == before.Keys
    requires forall a :: a in mem && a != b.addr && a != start && !OnList(free, a)
               ==> mem[a] == before[a]
    requires !mem[b.addr].inUse && NoNewMarks(before, mem)
    ensures HeapOk(lo, hi, Insert(free, b), live - {b})
    ensures Marked(mem, live - {b})
    ensures LiveSize(live - {b}) == LiveSize(live) - b.size
    ensures SizeOf(Insert(free, b)) == SizeOf(free) + b.size
  {
    InsertOk(lo, hi, free, live, b);
    InsertSize(free, b);
    LiveSizeWithout(live, b);
    hide HeapOk, Partition, LiveSize, SizeOf, Insert;
    OkFits(lo, hi, free, live);
    HeadUnique(lo, hi, free, live, b);
    forall a | a in mem && mem[a].inUse
      ensures IsLiveAt(live - {b}, a)
    {
      assert IsLiveAt(live, a);
      var c :| c in live && c.addr == a;
      assert c in live - {b};
    }
    forall c | c in live - {b}
      ensures c.addr in mem && mem[c.addr] == before[c.addr]
    {
      assert c in Blocks(free, live);
      assert forall i :: 0 <= i < |free| ==> free[i].Apart(c);
    }
  }

  ghost predicate OnList(fs: seq<Block>, a: nat) {
    exists i :: 0 <= i < |fs| && fs[i].addr == a
  }

  ghost predicate ListInHeap(lo: nat, hi: nat, fs: seq<Block>) {
    && Sorted(fs)
    && forall i :: 0 <= i < |fs| ==> lo <= fs[i].addr && fs[i].End() <= hi && fs[i].size > 0
  }

  /** Where insert_block stops, what it tests there, and the list it is to leave. */
  lemma {:induction false} InsertPlan(mem: map<nat, Header>, start: nat, lo: nat, end: nat, fs: seq<Block>, b: Block)
    requires start < lo < end && Linked(mem, start, fs, end) && ListInHeap(lo, end, fs)
    requires lo <= b.addr && b.End() <= end && b.size > 0
    requires forall i :: 0 <= i < |fs| ==> fs[i].Apart(b)
    ensures var k := Below(fs, b.addr);
      var walker, left := Elem(start, fs, k), JoinsLeft(fs, b);
      && walker in mem && mem[walker].next == After(fs, end, k)
      && (walker == start || OnList(fs, walker)) && walker != b.addr
      && (forall m :: 0 <= m < |fs| ==> fs[m].addr != b.addr)
      && (walker + mem[walker].blockSize == b.addr <==> left)
      && (left ==> k > 0 && walker == fs[k - 1].addr && lo <= walker < end
                   && mem[walker].blockSize == fs[k - 1].size && !mem[walker].inUse)
      && var c := if left then Join(fs[k - 1], b) else b;
        var joins := k < |fs| && c.End() == fs[k].addr;
        Insert(fs, b) == ReplaceRange(fs, if left then k - 1 else k, if joins then Join(c, fs[k]) else c,
                                      if joins then k + 1 else k)
  {
    var k := Below(fs, b.addr);
    InsertForm(fs, b);
    hide Insert, ReplaceRange, Below, Sorted;
    assert k > 0 ==> Elem(start, fs, k) == fs[k - 1].addr;
  }

  /** The header after element k, when another block than element k + 1 may have been rewritten. */
  lemma {:induction false} NextHeader(before: map<nat, Header>, mem: map<nat, Header>, start: nat, lo: nat, end: nat,
                                      fs: seq<Block>, k: nat, block: nat)
    requires Linked(before, start, fs, end) && ListInHeap(lo, end, fs) && k <= |fs|
    requires mem.Keys >= before.Keys && forall a :: a in before && a != block ==> mem[a] == before[a]
    requires (k > 0 && fs[k - 1].addr == block) || forall m :: 0 <= m < |fs| ==> fs[m].addr != block
    ensures k < |fs| ==> fs[k].addr in mem && fs[k].addr != end && mem[fs[k].addr].blockSize == fs[k].size
                         && mem[fs[k].addr].next == After(fs, end, k + 1)
  {
    if k < |fs| {
      assert Elem(start, fs, k + 1) == fs[k].addr;
    }
  }

  /** What the second half of insert_block achieves. */
  lemma {:induction false} LinkedIn(before: map<nat, Header>, was: map<nat, Header>, now: map<nat, Header>,
                                    start: nat, lo: nat, end: nat,
                                    fs: seq<Block>, k: nat, i: nat, c: Block, absorbed: Header)
    requires start < lo < end && Linked(before, start, fs, end) && ListInHeap(lo, end, fs)
    requires i <= k <= |fs| && lo <= c.addr < end
    requires var walker := Elem(start, fs, k);
      && (if walker == c.addr then i + 1 == k else i == k && forall m :: 0 <= m < |fs| ==> fs[m].addr != c.addr)
      && walker in was
      && now == (if walker == c.addr then was[c.addr := absorbed]
                 else was[c.addr := absorbed][walker := was[walker].(next := c.addr)])
    requires was.Keys >= before.Keys && forall a :: a in before && a != c.addr ==> was[a] == before[a]
    requires var joins := k < |fs| && c.End() == fs[k].addr;
      absorbed == if joins then Header(After(fs, end, k + 1), c.size + fs[k].size, false)
                  else Header(After(fs, end, k), c.size, false)
    ensures var joins := k < |fs| && c.End() == fs[k].addr;
      Linked(now, start, ReplaceRange(fs, i, if joins then Join(c, fs[k]) else c, if joins then k + 1 else k), end)
  {
    hide ReplaceRange;
    var joins := k < |fs| && c.End() == fs[k].addr;
    var j, d := if joins then k + 1 else k, if joins then Join(c, fs[k]) else c;
    Relinked(before, now, start, fs, end, i, d, j);
  }

  /** Replacing a stretch of the list by one block: rewriting the header before it and its own is enough. */
  lemma {:induction false} Relinked(before: map<nat, Header>, after: map<nat, Header>,
                                    start: nat, fs: seq<Block>, end: nat, i: nat, d: Block, j: nat)
    requires Linked(before, start, fs, end) && i <= j <= |fs|
    requires before.Keys <= after.Keys
    requires d.addr in after && after[d.addr] == Header(After(fs, end, j), d.size, false)
    requires d.addr != start && d.addr != end
    requires Sorted(fs) && start < end && forall m :: 0 <= m < |fs| ==> start < fs[m].addr < end
    requires forall m :: 0 <= m < |fs| && (m < i || j <= m) ==> fs[m].addr != d.addr
    requires after[Elem(start, fs, i)] == before[Elem(start, fs, i)].(next := d.addr)
    requires forall a :: a in before && a != Elem(start, fs, i) && a != d.addr ==> after[a] == before[a]
    ensures Linked(after, start, ReplaceRange(fs, i, d, j), end)
  {
    var list := ReplaceRange(fs, i, d, j);
    forall m: nat | m <= |list|
      ensures Elem(start, list, m) in after
      ensures after[Elem(start, list, m)].next == After(list, end, m)
    {
      RelinkedNext(before, after, start, fs, end, i, d, j, m);
    }
    forall m: nat | m < |list|
      ensures list[m].addr in after && after[list[m].addr].blockSize == list[m].size && !after[list[m].addr].inUse
    {
      assert list[m] == if m < i then fs[m] else if m == i then d else fs[j + m - i - 1];
      hide ReplaceRange, Sorted, After;
      if m > i {
        ElemOrder(start, fs, i, j + m - i);
      }
    }
    hide ReplaceRange, Sorted;
    assert Elem(start, fs, 0) == start;
  }

  lemma {:induction false} RelinkedNext(before: map<nat, Header>, after: map<nat, Header>,
                                        start: nat, fs: seq<Block>, end: nat, i: nat, d: Block, j: nat, m: nat)
    requires Linked(before, start, fs, end) && i <= j <= |fs| && m <= |ReplaceRange(fs, i, d, j)|
    requires before.Keys <= after.Keys
    requires d.addr in after && after[d.addr].next == After(fs, end, j)
    requires Sorted(fs) && start < end && forall m :: 0 <= m < |fs| ==> start < fs[m].addr < end
    requires d.addr != start && forall m :: 0 <= m < |fs| && (m < i || j <= m) ==> fs[m].addr != d.addr
    requires after[Elem(start, fs, i)] == before[Elem(start, fs, i)].(next := d.addr)
    requires forall a :: a in before && a != Elem(start, fs, i) && a != d.addr ==> after[a] == before[a]
    ensures var list := ReplaceRange(fs, i, d, j);
      Elem(start, list, m) in after && after[Elem(start, list, m)].next == After(list, end, m)
  {
    ReplaceElem(start, fs, end, i, d, j, m);
    var n := if m <= i then m else j + m - i - 1;
    if n <= i && m < i {
      ElemOrder(start, fs, m, i);
    } else if m > i + 1 {
      ElemOrder(start, fs, i, n);
    }
    hide ReplaceRange, Sorted, After;
  }

  lemma {:induction false} ReplaceElem(start: nat, fs: seq<Block>, end: nat, i: nat, d: Block, j: nat, m: nat)
    requires i <= j <= |fs| && m <= |ReplaceRange(fs, i, d, j)|
    ensures Elem(start, ReplaceRange(fs, i, d, j), m)
         == if m <= i then Elem(start, fs, m) else if m == i + 1 then d.addr else Elem(start, fs, j + m - i - 1)
    ensures After(ReplaceRange(fs, i, d, j), end, m)
         == if m < i then After(fs, end, m) else if m == i then d.addr else After(fs, end, j + m - i - 1)
  {
  }

  lemma {:induction false} ElemOrder(start: nat, fs: seq<Block>, m: nat, n: nat)
    requires Sorted(fs) && forall m :: 0 <= m < |fs| ==> start < fs[m].addr
    requires m < n <= |fs|
    ensures Elem(start, fs, m) < Elem(start, fs, n)
  {
    if 0 < m {
      assert fs[m - 1].End() < fs[n - 1].addr;
    }
  }

  lemma {:induction false} OneBlockOk(lo: nat, hi: nat)
    requires lo + HEADER <= hi && lo % 8 == 0 && hi % 8 == 0
    ensures HeapOk(lo, hi, [Block(lo, hi - lo)], {})
    ensures SizeOf([Block(lo, hi - lo)]) == hi - lo && LiveSize({}) == 0
  {
    var b := Block(lo, hi - lo);
    assert Blocks([b], {}) == {b};
    forall p | lo <= p < hi
      ensures Covered({b}, p)
    {
      assert b.Has(p);
    }
  }

  /** The comparison with the total of free bytes never turns away a request some block could hold. */
  lemma {:induction false} NothingAboveTheSum(free: seq<Block>, need: nat)
    ensures need > SizeOf(free) ==> FirstFit(free, need) == |free|
  {
    var k := FirstFit(free, need);
    if k < |free| {
      MemberSize(free, k);
    }
  }

  lemma {:induction false} FirstFitUnique(free: seq<Block>, need: nat, k: nat)
    requires k <= |free|
    requires k < |free| ==> free[k].size >= need
    requires forall i :: 0 <= i < k ==> free[i].size < need
    ensures FirstFit(free, need) == k
  {
  }

  lemma {:induction false} Unlinked(before: map<nat, Header>, after: map<nat, Header>,
                                    start: nat, fs: seq<Block>, end: nat, k: nat)
    requires Linked(before, start, fs, end) && k < |fs|
    requires Sorted(fs) && start < end && forall m :: 0 <= m < |fs| ==> start < fs[m].addr < end
    requires after == before[Elem(start, fs, k) := before[Elem(start, fs, k)].(next := After(fs, end, k + 1))]
    ensures Linked(after, start, Without(fs, k), end)
  {
    var list := Without(fs, k);
    forall m: nat | m <= |list|
      ensures Elem(start, list, m) in after && after[Elem(start, list, m)].next == After(list, end, m)
    {
      var n := if m <= k then m else m + 1;
      assert Elem(start, list, m) == Elem(start, fs, n);
      if m < k { ElemOrder(start, fs, m, k); }
      if m > k { ElemOrder(start, fs, k, n); }
    }
    forall m: nat | m < |list|
      ensures list[m].addr in after && after[list[m].addr].blockSize == list[m].size && !after[list[m].addr].inUse
    {
      assert list[m] == fs[if m < k then m else m + 1];
    }
  }

  lemma {:induction false} NoWrap(x: nat)
    requires x < WORD
    ensures x % WORD == x
  {
  }

  lemma {:induction false} NextMultiple(x: nat)
    ensures (x + 7) / 8 * 8 == if x % 8 == 0 then x else x + (8 - x % 8)
  {
  }

  lemma {:induction false} TopBit(size: nat)
    requires size < WORD
    ensures size / ALLOCATED_BIT % 2 == 0 <==> size < ALLOCATED_BIT
  {
  }

  lemma {:induction false} CarveWhole(free: seq<Block>, k: nat, need: nat)
    requires k < |free| && !Splits(free[k], need)
    ensures Carve(free, k, need) == Without(free, k)
  {
  }

  /** The rest of a cut block lies where the block was, apart from every other free block. */
  lemma {:induction false} RestPlace(lo: nat, hi: nat, free: seq<Block>, k: nat, need: nat)
    requires ListInHeap(lo, hi, free) && k < |free| && need > 0 && Splits(free[k], need)
    ensures var rest, others := Leftover(free[k], need), Without(free, k);
      && lo <= free[k].addr < rest.addr && rest.End() <= hi && rest.size > 0
      && (forall i :: 0 <= i < |others| ==> others[i].Apart(rest))
      && InFree(free, rest.addr) && InFree(free, free[k].addr)
  {
    var rest, others := Leftover(free[k], need), Without(free, k);
    assert free[k].Has(rest.addr) && free[k].Has(free[k].addr);
    forall i | 0 <= i < |others|
      ensures others[i].Apart(rest)
    {
      assert others[i] == free[if i < k then i else i + 1];
    }
  }

  lemma {:induction false} WithoutApart(lo: nat, hi: nat, free: seq<Block>, k: nat)
    requires ListInHeap(lo, hi, free) && k < |free|
    ensures ListInHeap(lo, hi, Without(free, k))
    ensures forall b :: b in Without(free, k) ==> b.size > 0 && b.Apart(free[k])
    ensures !OnList(Without(free, k), free[k].addr)
    ensures forall a: nat :: OnList(Without(free, k), a) ==> InFree(free, a)
  {
    var others := Without(free, k);
    OthersApart(free, k);
    assert forall i :: 0 <= i < |others| ==> others[i] in others && others[i] in free;
    forall a: nat | OnList(others, a)
      ensures InFree(free, a)
    {
      var i :| 0 <= i < |others| && others[i].addr == a;
      var j :| 0 <= j < |free| && free[j] == others[i];
      assert free[j].Has(a);
    }
  }

  /** After the two headers of a cut block are written, its rest is ready for insert_block. */
  lemma {:induction false} RestReady(before: map<nat, Header>, after: map<nat, Header>, start: nat, lo: nat, hi: nat,
                                     fs: seq<Block>, lv: set<Block>, k: nat, need: nat)
    requires HeapOk(lo, hi, fs, lv) && start < lo < hi
    requires k < |fs| && need > 0 && Splits(fs[k], need)
    requires Linked(before, start, Without(fs, k), hi)
    requires fs[k].addr in before
    requires after == before[fs[k].addr + need := Header(NULL, fs[k].size - need, false)]
                            [fs[k].addr := before[fs[k].addr].(blockSize := need)]
    ensures var rest, others := Leftover(fs[k], need), Without(fs, k);
      && Linked(after, start, others, hi) && ListInHeap(lo, hi, others)
      && lo <= fs[k].addr < rest.addr && rest.End() <= hi && rest.size > 0
      && (forall i :: 0 <= i < |others| ==> others[i].Apart(rest)) && !OnList(others, fs[k].addr)
      && (forall a: nat :: OnList(others, a) ==> InFree(fs, a))
      && InFree(fs, rest.addr) && InFree(fs, fs[k].addr)
      && Insert(others, rest) == Carve(fs, k, need)
  {
    hide HeapOk, Insert, ListInHeap, Linked, InFree, OnList, Carve, Without;
    InsertRest(lo, hi, fs, lv, k, need);
    FreeInHeap(lo, hi, fs, lv);
    RestPlace(lo, hi, fs, k, need);
    WithoutApart(lo, hi, fs, k);
    StillLinkedOutside(before, after, start, Without(fs, k), hi, fs[k]);
  }

  /** A hand-out leaves no free block at the address it takes. */
  lemma {:induction false} CarveAvoids(free: seq<Block>, k: nat, need: nat)
    requires Sorted(free) && k < |free| && need > 0
    requires forall i :: 0 <= i < |free| ==> free[i].size > 0
    ensures forall m :: 0 <= m < |Carve(free, k, need)| ==> Carve(free, k, need)[m].addr != free[k].addr
  {
    OthersApart(free, k);
    var list := Carve(free, k, need);
    forall m | 0 <= m < |list|
      ensures list[m].addr != free[k].addr
    {
      assert list[m] in Without(free, k) || list[m] in Rest(free[k], need);
    }
  }

  /** Some free block contains the address. */
  ghost predicate InFree(free: seq<Block>, a: nat) {
    exists i :: 0 <= i < |free| && free[i].Has(a)
  }

  /** Headers other than start_block's and those inside free blocks are untouched. */
  ghost predicate OutsideKept(before: map<nat, Header>, after: map<nat, Header>, start: nat, free: seq<Block>) {
    forall a :: a in before && a != start && !InFree(free, a) ==> a in after && after[a] == before[a]
  }

  lemma {:induction false} RestKeepsOutside(before: map<nat, Header>, written: map<nat, Header>,
                                            after: map<nat, Header>,
                                            start: nat, fs: seq<Block>, others: seq<Block>, block: nat, rest: nat)
    requires forall a: nat :: OnList(others, a) ==> InFree(fs, a)
    requires InFree(fs, block) && InFree(fs, rest)
    requires written.Keys == before.Keys + {block, rest} && written.Keys == after.Keys
    requires forall a :: a in before && a != block && a != rest ==> written[a] == before[a]
    requires forall a :: a in after && a != rest && a != start && !OnList(others, a) ==> after[a] == written[a]
    ensures OutsideKept(before, after, start, fs)
  {
    hide OnList, InFree;
  }

  lemma {:induction false} KeptTwice(before: map<nat, Header>, mid: map<nat, Header>, after: map<nat, Header>,
                                     start: nat, free: seq<Block>)
    requires OutsideKept(before, mid, start, free) && OutsideKept(mid, after, start, free)
    requires NoNewMarks(before, mid) && NoNewMarks(mid, after)
    ensures OutsideKept(before, after, start, free) && NoNewMarks(before, after)
  {
    hide InFree;
  }

  lemma {:induction false} TakenSize(b: Block, need: nat)
    ensures Taken(b, need).size == if b.size - need > MIN_SPLIT then need else b.size
  {
  }

  /** The headers of a free block and of the element before it. */
  lemma {:induction false} NextOnList(mem: map<nat, Header>, start: nat, lo: nat, end: nat,
                                      fs: seq<Block>, lv: set<Block>, k: nat)
    requires Linked(mem, start, fs, end) && HeapOk(lo, end, fs, lv) && start < lo < end && k < |fs|
    ensures Elem(start, fs, k) in mem && fs[k].addr in mem && Elem(start, fs, k) < fs[k].addr
    ensures mem[fs[k].addr].next == After(fs, end, k + 1)
    ensures mem[fs[k].addr].blockSize == fs[k].size && !mem[fs[k].addr].inUse
  {
    OkFits(lo, end, fs, lv);
    assert Elem(start, fs, k + 1) == fs[k].addr;
    ElemOrder(start, fs, k, k + 1);
  }

  /** Taking a block off the list touches no header but that of the element before it. */
  lemma {:induction false} UnlinkKeeps(before: map<nat, Header>, after: map<nat, Header>, start: nat, lo: nat, end: nat,
                                       fs: seq<Block>, lv: set<Block>, k: nat)
    requires Linked(before, start, fs, end) && HeapOk(lo, end, fs, lv) && start < lo < end && k < |fs|
    requires Elem(start, fs, k) in before
    requires after == before[Elem(start, fs, k) := before[Elem(start, fs, k)].(next := After(fs, end, k + 1))]
    ensures Linked(after, start, Without(fs, k), end)
    ensures OutsideKept(before, after, start, fs) && NoNewMarks(before, after)
  {
    OkFits(lo, end, fs, lv);
    Unlinked(before, after, start, fs, end, k);
    hide Linked;
    assert k > 0 ==> fs[k - 1].Has(Elem(start, fs, k));
  }

  lemma {:induction false} OthersApart(free: seq<Block>, k: nat)
    requires Sorted(free) && k < |free|
    ensures Sorted(Without(free, k))
    ensures forall b :: b in Without(free, k) ==> b in free && b.Apart(free[k])
    ensures forall b :: b in Without(free, k) && b.size > 0 && free[k].size > 0 ==> b.addr != free[k].addr
  {
  }

  /** Rewriting headers inside a block that is not on the list. */
  lemma {:induction false} StillLinkedOutside(before: map<nat, Header>, after: map<nat, Header>,
                                              start: nat, fs: seq<Block>, end: nat, b: Block)
    requires Linked(before, start, fs, end)
    requires start < b.addr && b.End() <= end
    requires forall c :: c in fs ==> c.size > 0 && c.Apart(b)
    requires forall a :: a in before && !b.Has(a) ==> a in after && after[a] == before[a]
    ensures Linked(after, start, fs, end)
  {
    forall i: nat | i <= |fs|
      ensures Elem(start, fs, i) in before && !b.Has(Elem(start, fs, i))
    {
      if i > 0 {
        assert fs[i - 1] in fs;
      }
    }
    forall i | 0 <= i < |fs|
      ensures fs[i].addr in before && !b.Has(fs[i].addr)
    {
      assert fs[i] in fs;
    }
  }

  lemma {:induction false} StillLinked(before: map<nat, Header>, after: map<nat, Header>,
                                       start: nat, fs: seq<Block>, end: nat, link: nat)
    requires Linked(before, start, fs, end)
    requires link != start && link != end && forall m :: 0 <= m < |fs| ==> fs[m].addr != link
    requires forall a :: a in before && a != link ==> a in after && after[a] == before[a]
    ensures Linked(after, start, fs, end)
  {
  }

  lemma {:induction false} FreeInHeap(lo: nat, hi: nat, fs: seq<Block>, lv: set<Block>)
    requires HeapOk(lo, hi, fs, lv)
    ensures ListInHeap(lo, hi, fs) && forall i :: 0 <= i < |fs| ==> lo <= fs[i].addr < hi
  {
    OkFits(lo, hi, fs, lv);
  }

  lemma {:induction false} LiveInHeap(lo: nat, hi: nat, fs: seq<Block>, lv: set<Block>, b: Block)
    requires HeapOk(lo, hi, fs, lv) && b in lv
    ensures lo <= b.addr && b.End() <= hi && b.size > 0
    ensures forall i :: 0 <= i < |fs| ==> fs[i].Apart(b)
  {
    OkFits(lo, hi, fs, lv);
  }

  lemma {:induction false} LiveIsBlock(fs: seq<Block>, lv: set<Block>, b: Block)
    requires b in lv
    ensures b in Blocks(fs, lv)
  {
  }

  /** What the header at a block's address says. */
  lemma {:induction false} HeadOf(mem: map<nat, Header>, start: nat, lo: nat, hi: nat,
                                  fs: seq<Block>, lv: set<Block>, b: Block)
    requires HeapOk(lo, hi, fs, lv) && Linked(mem, start, fs, hi) && Marked(mem, lv)
    requires b in Blocks(fs, lv)
    ensures b.addr in mem && lo <= b.addr < hi
    ensures if b in lv then mem[b.addr] == Header(NULL, b.size, true) else !mem[b.addr].inUse
    ensures forall c :: c in lv && c.addr == b.addr ==> c == b
    ensures b in lv ==> forall i :: 0 <= i < |fs| ==> fs[i].addr != b.addr
  {
    HeadUnique(lo, hi, fs, lv, b);
    assert b in fs || b in lv;
    forall c | c in lv
      ensures c in Blocks(fs, lv)
    {
    }
    forall i | 0 <= i < |fs|
      ensures fs[i] in Blocks(fs, lv)
    {
    }
  }

  /** Only the live block itself has a header at its address. */
  lemma {:induction false} HeadUnique(lo: nat, hi: nat, free: seq<Block>, live: set<Block>, b: Block)
    requires HeapOk(lo, hi, free, live) && b in Blocks(free, live)
    ensures forall c :: c in Blocks(free, live) && c.addr == b.addr ==> c == b
  {
    forall c | c in Blocks(free, live) && c.addr == b.addr
      ensures c == b
    {
      assert FitsHeap(lo, hi, b) && FitsHeap(lo, hi, c);
      assert c == b || c.Apart(b);
    }
  }
}
