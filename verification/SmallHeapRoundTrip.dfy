/** Sequences of calls on the heap of rt-thread/src/mem.c. */
module SmallHeapRoundTrip {
  import opened Machine
  import opened Tiling
  import opened TilingOps
  import opened HeapCells
  import opened SmallHeap

  /** rt_malloc and then rt_free of the result: block chain, lfree and used_mem are exactly as before, and every
      other live payload is untouched. */
  method MallocThenFree(heap: Heap, size: nat)
    requires heap.Valid() && heap.Returns(size)
    modifies heap, heap.mem
    ensures heap.Valid() && heap.blocks == old(heap.blocks)
    ensures heap.lfree == old(heap.lfree) && heap.usedMem == old(heap.usedMem)
    ensures LiveKept(old(heap.mem[..]), heap.mem[..], heap.blocks, {})
  {
    hide Linked, Tiles, NoFreeNeighbours, OnBoundaries, LowestFree, UsedSpan, LiveKept, AllocAt, FreeAt, FirstFit;
    ghost var bs, m := heap.blocks, heap.mem[..];
    KeptAll(m, bs, {});
    var r := heap.Malloc(size);
    if r.Some? {
      ghost var cs, m1, i := heap.blocks, heap.mem[..], FirstFit(bs, Need(size));
      FitAt(bs, Need(size));
      AllocThenFree(bs, i, Need(size), HDR, CUT, 0, heap.HeapEnd(), LEAST);
      GrantedIndex(bs, i, Need(size), heap.HeapEnd());
      heap.Free(Some(r.value));
      KeptTwice(m, m1, heap.mem[..], bs, cs, cs[i]);
    }
  }

  lemma FitAt(bs: seq<Block>, need: nat)
    requires FirstFit(bs, need) < |bs|
    ensures var i := FirstFit(bs, need); !bs[i].used && HDR + need <= bs[i].span
  {
  }

  /** The granted block is block `i`, new among the live blocks, and found by its address. */
  lemma GrantedIndex(bs: seq<Block>, i: nat, need: nat, hi: nat)
    requires Canonical(bs, 0, hi, LEAST) && i < |bs| && !bs[i].used && MIN_SIZE_ALIGNED <= need
      && HDR + need <= bs[i].span
    ensures var cs := AllocAt(bs, i, need, HDR, CUT);
            && LiveAt(cs, bs[i].start) && IndexOf(cs, bs[i].start) == i < |cs| && cs[i] !in Live(bs)
            && Live(cs) == Live(bs) + {cs[i]} && bs[i].start + HDR < hi
  {
    var cs, g := AllocAt(bs, i, need, HDR, CUT), Granted(bs[i], need, HDR, CUT);
    AllocAtChain(bs, i, need, HDR, CUT, 0, hi, LEAST);
    TilesAt(bs, i, 0, hi, LEAST);
    assert cs[i] == g && g in Live(cs);
    var j := IndexOf(cs, bs[i].start);
    TilesAt(cs, i, 0, hi, LEAST);
    TilesAt(cs, j, 0, hi, LEAST);
    if i < j { Apart(cs, i, j, 0, hi, LEAST); }
    if j < i { Apart(cs, j, i, 0, hi, LEAST); }
  }

  lemma KeptTwice(m: seq<int>, m1: seq<int>, m2: seq<int>, bs: seq<Block>, cs: seq<Block>, g: Block)
    requires LiveKept(m, m1, bs, {}) && LiveKept(m1, m2, cs, {g}) && Live(cs) == Live(bs) + {g} && g !in Live(bs)
    requires |m| == |m1| == |m2|
    ensures LiveKept(m, m2, bs, {})
  {
    forall b | b in Live(bs) ensures Kept(m, m2, b) {
      assert Kept(m, m1, b) && Kept(m1, m2, b);
    }
  }

  /** Freeing all live blocks, in any order, leaves one free block and nothing in use. */
  method FreeAllBlocks(heap: Heap, order: seq<nat>)
    requires heap.Valid() && ListsLive(heap.blocks, order)
    modifies heap, heap.mem
    ensures heap.Valid() && heap.blocks == [Block(0, heap.HeapEnd(), false)]
    ensures heap.lfree == 0 && heap.usedMem == 0
  {
    hide Linked, Tiles, NoFreeNeighbours, OnBoundaries, LowestFree, UsedSpan, LiveKept, FreeAt, ListsLive;
    ghost var hi := heap.HeapEnd();
    var k := 0;
    while k < |order|
      invariant k <= |order| && heap.Valid() && ListsLive(heap.blocks, order[k..])
    {
      ghost var bs, rest := heap.blocks, order[k..];
      FirstListed(bs, rest, hi);
      ListsRest(bs, rest, 0, hi, LEAST);
      heap.Free(Some(order[k] + HDR));
      assert rest[1..] == order[k + 1..];
      k := k + 1;
    }
    assert order[k..] == [];
    NoneLive(heap.blocks, hi);
  }

  lemma FirstListed(bs: seq<Block>, order: seq<nat>, hi: nat)
    requires Tiles(bs, 0, hi, LEAST) && ListsLive(bs, order) && order != []
    ensures LiveAt(bs, order[0]) && order[0] + HDR < hi
  {
    var i := IndexOf(bs, order[0]);
    TilesAt(bs, i, 0, hi, LEAST);
  }

  lemma NoneLive(bs: seq<Block>, hi: nat)
    requires Canonical(bs, 0, hi, LEAST) && ListsLive(bs, []) && LEAST <= hi
    ensures bs == [Block(0, hi, false)] && LowestFree(bs, hi) == 0 && UsedSpan(bs) == 0
  {
    FreeAllInAnyOrder(bs, [], 0, hi, LEAST);
  }

  // ----- Two runs from a fresh heap

  /** A heap with 32 bytes to give refuses a request for all of them: the free block is an exact fit ending at
      heap_end. */
  method ExactFitRefused() returns (heap: Heap, r: Option<nat>)
    ensures fresh(heap) && heap.Valid() && heap.blocks == [Block(0, HDR + 32, false)]
    ensures Fits(heap.blocks[0], Need(32)) && r.None?
  {
    hide Linked, Tiles, NoFreeNeighbours, OnBoundaries, LowestFree, UsedSpan;
    heap := new Heap(0, 64);
    ghost var bs := heap.blocks;
    assert bs[0] == Block(0, 48, false) && Need(32) == 32 && FirstFit(bs, 32) == 0;
    r := heap.Malloc(32);
  }

  /** Shrinking a block of 40 bytes to 8 leaves a block below the minimum of rt_malloc. */
  method ShrinkLeavesEightBytes() returns (heap: Heap)
    ensures fresh(heap) && heap.Valid() && Block(0, HDR + 8, true) in Live(heap.blocks)
  {
    hide Linked, Tiles, NoFreeNeighbours, OnBoundaries, LowestFree, UsedSpan, LiveKept, Reallocated;
    heap := new Heap(0, 1024);
    ghost var bs, need := heap.blocks, Need(40);
    assert need == 40 && bs[0] == Block(0, 1008, false) && FirstFit(bs, 40) == 0;
    var p := heap.Malloc(40);
    GrantedIndex(bs, 0, 40, heap.HeapEnd());
    ghost var cs := heap.blocks;
    assert cs[0] == Block(0, HDR + 40, true) && IndexOf(cs, 0) == 0;
    var r := heap.Realloc(Some(p.value), 8);
    assert heap.blocks == ResizeAt(cs, 0, 8, HDR);
    assert heap.blocks[0] == Block(0, HDR + 8, true);
  }
}
