/** The memory heap of rt-thread/src/memheap.c: block headers linked in two lists that must agree. */
module MemHeap {
  import opened Machine
  import opened WaitList
  import opened CircularList
  import opened Tiling
  import opened TilingOps
  import opened MemHeapLists
  import opened Memory

  /** The size rt_memheap_alloc works with. */
  function Need(size: nat): nat {
    if Align(size) < MINIALLOC then MINIALLOC else Align(size)
  }

  /** It is 12 for sizes up to 8, and the least multiple of 8 from `size` on for all others. */
  lemma NeedLeast(size: nat, n: nat)
    requires size <= n && n % 8 == 0
    ensures size <= 8 ==> Need(size) == 12
    ensures size > 8 ==> size <= Need(size) <= n && Need(size) % 8 == 0
  {
    AlignLeast(size, n);
    AlignLeast(size, 8 * ((size + 7) / 8));
  }

  lemma AlignLeast(size: nat, n: nat)
    requires size <= n && n % 8 == 0
    ensures size <= Align(size) <= n && Align(size) % 8 == 0
  {
  }

  /** A block handed out is as large as was needed, or less than 36 bytes larger. */
  lemma GrantedTight(b: Block, need: nat)
    requires HDR + need <= b.span
    ensures var g := Granted(b, need, HDR, LEAST);
            g.start == b.start && g.used && HDR + need <= g.span < HDR + need + 36
            && (b.span >= HDR + need + 36 ==> g.span == HDR + need) && HDR == 24
  {
  }

  /** `top` is the largest number in `levels`. */
  ghost predicate IsPeak(top: int, levels: seq<int>) {
    top in levels && forall x :: x in levels ==> x <= top
  }

  lemma PeakGrows(top: int, levels: seq<int>, x: int)
    requires IsPeak(top, levels)
    ensures IsPeak(Max(top, x), levels + [x])
    ensures levels != [] ==> levels[|levels| - 1] <= top
  {
    assert levels != [] ==> levels[|levels| - 1] in levels;
  }

  /** A pool of 48 or 56 bytes has 0 or 8 bytes available, and refuses every request by the first test. */
  lemma TinyPoolRefuses(poolSize: nat, size: nat)
    requires 2 * HDR <= poolSize < 2 * HDR + MINIALLOC
    ensures !(Need(size) < poolSize - 2 * HDR)
  {
  }

  class Heap {
    const start: nat              // start_addr
    const poolSize: nat
    const listHead: nat           // the address of free_header, which lies outside the pool
    const mem: array<int>         // the payload bytes, by address
    var available: int            // available_size
    var maxUsed: int              // max_used_size
    // the fields of all headers, by header address
    var next: map<nat, nat>
    var prev: map<nat, nat>
    var nextFree: map<nat, nat>
    var prevFree: map<nat, nat>
    var used: map<nat, bool>
    ghost var blocks: seq<Block>
    ghost var free: seq<nat>
    ghost var levels: seq<int>    // pool_size - available_size after every operation so far

    /** The used block of no payload that closes the pool. */
    function Tail(): nat
      requires HDR <= poolSize
    {
      start + poolSize - HDR
    }

    /** The links and flags in memory are those of `blocks` and `free`. */
    ghost predicate Linked()
      reads this
    {
      && HDR <= poolSize
      && Tiles(blocks, start, Tail(), LEAST)
      && Ring(next, prev, Tail(), Starts(blocks))
      && FlagsMatch(used, blocks, Tail())
      && Ring(nextFree, prevFree, listHead, free)
      && !(start <= listHead <= Tail())
    }

    ghost predicate Valid()
      reads this
    {
      && Linked() && NoFreeNeighbours(blocks) && ListsFree(blocks, free) && Tail() <= mem.Length
      && available == FreePayload(blocks, HDR)
      && IsPeak(maxUsed, levels) && levels != [] && levels[|levels| - 1] == poolSize - available
    }

    /** rt_memheap_init. */
    constructor (start_addr: nat, size: nat, free_header: nat)
      requires 2 * HDR + MINIALLOC <= AlignDown(size) && !(start_addr <= free_header <= start_addr + size)
      ensures Valid() && start == start_addr && poolSize == AlignDown(size) && listHead == free_header
      ensures blocks == [Block(start, poolSize - HDR, false)] && free == [start] && levels == [2 * HDR] && fresh(mem)
    {
      start, poolSize, listHead := start_addr, AlignDown(size), free_header;
      var pool := AlignDown(size);
      mem := new int[start_addr + pool];
      available := pool - 2 * HDR;
      maxUsed := 2 * HDR;
      var item := start_addr;
      var tail := item + (pool - 2 * HDR) + HDR;
      next := map[item := tail, tail := item];
      prev := map[item := tail, tail := item];
      used := map[item := false, tail := true];
      nextFree := map[free_header := item, item := free_header];
      prevFree := map[free_header := item, item := free_header];
      blocks, free, levels := [Block(start_addr, pool - HDR, false)], [start_addr], [2 * HDR];
      new;
      assert blocks[1..] == [];
      assert Starts(blocks) == [start];
      forall p ensures p in free <==> FreeBlockAt(blocks, p) { FreeBlockOne(blocks[0], p); }
    }

    /** What memory says about block `i`; MEMITEM_SIZE is its span less the header. */
    lemma BlockAt(i: nat)
      requires Linked() && i < |blocks|
      ensures var p := blocks[i].start;
              && p in next && next[p] == StartAt(blocks, i + 1, Tail()) == blocks[i].End() && next[p] in prev
                 && prev[next[p]] == p
              && p in prev && prev[p] == (if i == 0 then Tail() else blocks[i - 1].start) && prev[p] in next
              && p in used && used[p] == blocks[i].used && LEAST <= blocks[i].span
              && start <= p && blocks[i].End() <= Tail() && next[p] in used
              && used[next[p]] == (i + 1 < |blocks| ==> blocks[i + 1].used)
              && prev[p] in used && used[prev[p]] == (i > 0 ==> blocks[i - 1].used)
    {
      TilesAt(blocks, i, start, Tail(), LEAST);
      RingAt(next, prev, blocks, Tail(), i);
    }

    /** Takes the free block `x` off the free list. */
    method Unlist(x: nat)
      requires Ring(nextFree, prevFree, listHead, free) && x in free
      modifies this`nextFree, this`prevFree, this`free
      ensures Ring(nextFree, prevFree, listHead, free) && free == Without(old(free), x)
    {
      ghost var k :| 0 <= k < |free| && free[k] == x;
      CircularList.Remove(nextFree, prevFree, listHead, free, k);
      prevFree := prevFree[nextFree[x] := prevFree[x]];
      nextFree := nextFree[prevFree[x] := nextFree[x]];
      DropIsWithout(free, k);
      free := Drop(free, k);
    }

    /** Puts block `x` to the front of the free list. */
    method List(x: nat)
      requires Ring(nextFree, prevFree, listHead, free) && x !in free && x != listHead
      modifies this`nextFree, this`prevFree, this`free
      ensures Ring(nextFree, prevFree, listHead, free) && free == [x] + old(free)
    {
      assert Link(nextFree, prevFree, At(listHead, free, 0), At(listHead, free, 1));
      CircularList.InsertAfter(nextFree, prevFree, listHead, free, 0, x);
      nextFree := nextFree[x := nextFree[listHead]];
      prevFree := prevFree[x := listHead];
      prevFree := prevFree[nextFree[listHead] := x];
      nextFree := nextFree[listHead := x];
      ghost var y := At(listHead, free, 1);
      assert prevFree == old(prevFree)[y := x][x := listHead];
      assert InsertAt(free, 0, x) == [x] + free;
      free := [x] + free;
    }

    /** Links a new free block at `q` into the ring behind block `i` at `p`, which ends there from now on. */
    method CutOff(p: nat, q: nat, ghost i: nat)
      requires Linked() && i < |blocks| && blocks[i].start == p
      requires p + LEAST <= q && q + LEAST <= blocks[i].End()
      modifies this`next, this`prev, this`used, this`blocks
      ensures Linked()
      ensures blocks == old(blocks)[..i]
                        + [Block(p, q - p, old(blocks)[i].used), Rest(q, old(blocks)[i].End())]
                        + old(blocks)[i + 1..]
    {
      hide Ring, Tiles;
      ghost var bs, tail := blocks, Tail();
      ghost var b, rest := Block(p, q - p, bs[i].used), Rest(q, bs[i].End());
      BlockAt(i);
      NotAStart(bs, i, q, start, tail);
      RingCut(next, prev, bs, tail, i, b, rest);
      used := used[q := false];
      prev := prev[q := p];
      next := next[q := next[p]];
      prev := prev[next[p] := q];
      next := next[p := q];
      ghost var y := StartAt(bs, i + 1, tail);
      assert prev == old(prev)[y := q][q := p];
      CutTiles(bs, i, b, rest, start, tail);
      CutFlags(old(used), bs, i, b, rest, tail);
      blocks := bs[..i] + [b, rest] + bs[i + 1..];
    }

    /** Links block `l + 1` at `y` out of the ring; its space goes to block `l` at `x`. */
    method TakeIn(x: nat, y: nat, ghost l: nat)
      requires Linked() && l + 1 < |blocks| && blocks[l].start == x && blocks[l + 1].start == y
      modifies this`next, this`prev, this`blocks
      ensures Linked()
      ensures old(blocks)[l + 1].End() >= x
      ensures blocks == old(blocks)[..l]
                        + [Block(x, old(blocks)[l + 1].End() - x, old(blocks)[l].used)]
                        + old(blocks)[l + 2..]
    {
      hide Ring, Tiles;
      ghost var bs, tail := blocks, Tail();
      BlockAt(l);
      BlockAt(l + 1);
      ghost var b := Block(x, bs[l + 1].End() - x, bs[l].used);
      RingJoin(next, prev, bs, tail, l, b);
      prev := prev[next[y] := x];
      next := next[x := next[y]];
      JoinTiles(bs, l, b, start, tail);
      JoinFlags(used, bs, l, b, tail);
      blocks := bs[..l] + [b] + bs[l + 2..];
    }

    method SetFlag(p: nat, flag: bool, ghost i: nat)
      requires Linked() && i < |blocks| && blocks[i].start == p
      modifies this`used, this`blocks
      ensures Linked() && blocks == old(blocks)[i := old(blocks)[i].(used := flag)]
    {
      hide Ring, Tiles;
      ghost var bs := blocks;
      BlockAt(i);
      used := used[p := flag];
      blocks := bs[i := bs[i].(used := flag)];
      assert Starts(blocks) == Starts(bs);
      FlagTiles(bs, i, flag, start, Tail());
      FlagFlags(old(used), bs, i, flag, start, Tail());
    }

    /** rt_memheap_alloc. `size` does not wrap when rounded up. */
    method Alloc(size: nat) returns (r: Option<nat>)
      requires Valid()
      modifies this
      ensures Valid()
      ensures var bs, k := old(blocks), FirstFit(old(blocks), old(free), Need(size));
              && (r.Some? <==> Need(size) < old(available) && k < |old(free)|)
              && (r.Some? ==> Allocated(bs, old(free), blocks, free, k, Need(size), r.value))
      ensures r.None? ==> blocks == old(blocks) && free == old(free) && maxUsed == old(maxUsed) && levels == old(levels)
      ensures r.Some? ==> levels == old(levels) + [poolSize - available]
    {
      hide Ring, Tiles, NoFreeNeighbours, FlagsMatch, FreePayload, FirstFit, IsPeak;
      var need := Need(size);
      if need >= available {
        return None;
      }
      var freeSize := 0;
      RingLink(nextFree, prevFree, listHead, free, 0);
      var header := nextFree[listHead];
      ghost var k := 0;
      while header != listHead && freeSize < need
        invariant k <= |free| && header == At(listHead, free, k + 1)
        invariant forall j :: 0 <= j < k ==> !Fits(blocks, free[j], need)
        invariant freeSize >= need ==>
          && k < |free| && header in next && freeSize == next[header] - header - HDR
          && Fits(blocks, free[k], need)
        decreases |free| - k, need - freeSize
        modifies {}
      {
        ghost var i := ListedBlock(k);
        freeSize := next[header] - header - HDR;
        if freeSize < need {
          RingLink(nextFree, prevFree, listHead, free, k + 1);
          header := nextFree[header];
          k := k + 1;
        }
      }
      if freeSize < need {
        HeadNotListed(nextFree, prevFree, listHead, free, k);
        FitIs(blocks, free, need, k);
        return None;
      }
      FitIs(blocks, free, need, k);
      Grant(header, need, freeSize, ListedBlock(k));
      return Some(header + HDR);
    }

    /** The block on place `k` of the free list. */
    ghost function ListedBlock(k: nat): (i: nat)
      requires Linked() && ListsFree(blocks, free) && k < |free|
      reads this
      ensures i < |blocks| && blocks[i].start == free[k] && !blocks[i].used && IndexAt(blocks, free[k]) == i
      ensures var p := free[k]; p in next && next[p] == blocks[i].End()
    {
      assert free[k] in free;
      var i :| 0 <= i < |blocks| && blocks[i].start == free[k] && !blocks[i].used;
      IndexAtIs(blocks, i, start, Tail());
      BlockAt(i);
      i
    }

    /** The rest of rt_memheap_alloc, for the free block `i` the search found. */
    method Grant(header: nat, need: nat, freeSize: nat, ghost i: nat)
      requires Valid() && i < |blocks| && blocks[i].start == header && !blocks[i].used
      requires MINIALLOC <= need <= freeSize == blocks[i].span - HDR
      modifies this
      ensures Valid() && blocks == AllocAt(old(blocks), i, need, HDR, LEAST)
      ensures free == FreeAfterAlloc(old(free), old(blocks)[i], need) && levels == old(levels) + [poolSize - available]
    {
      hide Ring, Tiles, NoFreeNeighbours, FlagsMatch, FreePayload, FirstFit, IsPeak, Without, ListsFree, AllocAt,
        FreeAfterAlloc, Cut;
      ghost var bs, fs := blocks, free;
      AllocAtChain(bs, i, need, HDR, LEAST, start, Tail(), LEAST);
      AllocListsFree(bs, fs, i, need, start, Tail());
      BlockAt(i);
      Detach(header, need, freeSize, i);
      if poolSize - available > maxUsed {
        maxUsed := poolSize - available;
      }
      CutThenUse(bs, i, need);
      SetFlag(header, true, i);
      PeakGrows(old(maxUsed), levels, poolSize - available);
      levels := levels + [poolSize - available];
    }

    /** Takes block `i` off the free list, after cutting off what the request does not need. */
    method Detach(header: nat, need: nat, freeSize: nat, ghost i: nat)
      requires Linked() && ListsFree(blocks, free) && i < |blocks| && blocks[i].start == header && !blocks[i].used
      requires MINIALLOC <= need <= freeSize == blocks[i].span - HDR
      modifies this`next, this`prev, this`used, this`blocks, this`nextFree, this`prevFree, this`free, this`available
      ensures Linked() && free == FreeAfterAlloc(old(free), old(blocks)[i], need)
      ensures blocks == if freeSize >= need + HDR + MINIALLOC then Cut(old(blocks), i, need) else old(blocks)
      ensures available == old(available) - if freeSize >= need + HDR + MINIALLOC then need + HDR else freeSize
    {
      hide Ring, Tiles, FlagsMatch, Without;
      ghost var bs, fs := blocks, free;
      BlockAt(i);
      assert header in free by { assert FreeBlockAt(bs, header); }
      if freeSize >= need + HDR + MINIALLOC {
        var rest := header + need + HDR;
        InsideFree(bs, fs, i, rest, start, Tail());
        CutOff(header, rest, i);
        Unlist(header);
        List(rest);
        available := available - need - HDR;
      } else {
        available := available - freeSize;
        Unlist(header);
      }
    }

    /** rt_memheap_free. */
    method Free(ptr: Option<nat>)
      requires Valid() && (ptr.Some? ==> IsLive(ptr.value))
      modifies this
      ensures Valid() && maxUsed == old(maxUsed)
      ensures ptr.None? ==> blocks == old(blocks) && free == old(free) && levels == old(levels)
      ensures ptr.Some? ==>
        var i := IndexOf(old(blocks), ptr.value - HDR);
        && blocks == FreeAt(old(blocks), i) && free == FreeAfterFree(old(free), old(blocks), i)
        && levels == old(levels) + [poolSize - available]
    {
      if ptr.Some? {
        FreeBlock(ptr.value - HDR, IndexOf(blocks, ptr.value - HDR));
      }
    }

    /** `ptr` is the payload of a live block. */
    ghost predicate IsLive(ptr: nat)
      reads this
    {
      HDR <= ptr && LiveAt(blocks, ptr - HDR)
    }

    method FreeBlock(header: nat, ghost i: nat)
      requires Valid() && i < |blocks| && blocks[i].start == header && blocks[i].used
      modifies this
      ensures Valid() && maxUsed == old(maxUsed) && levels == old(levels) + [poolSize - available]
      ensures blocks == FreeAt(old(blocks), i) && free == FreeAfterFree(old(free), old(blocks), i)
    {
      hide Ring, Tiles, NoFreeNeighbours, FlagsMatch, FreePayload, IsPeak, ListsFree, FreeAt, FreeAfterFree;
      FreeAtChain(blocks, i, HDR, start, Tail(), LEAST);
      FreeListsFree(blocks, free, i, start, Tail());
      BlockAt(i);
      Release(header, i);
      PeakGrows(maxUsed, levels, poolSize - available);
      levels := levels + [poolSize - available];
    }

    /** The body of rt_memheap_free between taking and releasing the lock. */
    method Release(header: nat, ghost i: nat)
      requires Linked() && ListsFree(blocks, free) && i < |blocks| && blocks[i].start == header && blocks[i].used
      modifies this`available, this`next, this`prev, this`used, this`blocks, this`nextFree, this`prevFree, this`free
      ensures Linked() && blocks == FreeAt(old(blocks), i) && free == FreeAfterFree(old(free), old(blocks), i)
      ensures var bs := old(blocks);
              available == old(available) + bs[i].span - HDR
                           + (if MergeFrom(bs, i) < i then HDR else 0) + (if i < MergeTo(bs, i) then HDR else 0)
    {
      hide Ring, Tiles, FlagsMatch, Without, ListsFree, FreeAt, JoinAt;
      ghost var bs, fs, l, r := blocks, free, MergeFrom(blocks, i), MergeTo(blocks, i);
      BlockAt(i);
      SetFlag(header, false, i);
      available := available + (next[header] - header - HDR);
      JoinsAreFreeAt(bs, i);
      FreeNeighboursListed(bs, fs, i, start, Tail());
      var h, insertHeader := MergeLeft(header, i);
      MergeRight(h, l, r > i, bs[r].start);
      if insertHeader {
        List(h);
      }
      assert free == FreeAfterFree(fs, bs, i);
    }

    /** Merges the free block `i` at `header` into its left neighbour, if that is free too. */
    method MergeLeft(header: nat, ghost i: nat) returns (h: nat, insertHeader: bool)
      requires Linked() && i < |blocks| && blocks[i].start == header && !blocks[i].used
      modifies this`available, this`next, this`prev, this`blocks
      ensures Linked()
      ensures var bs, l := old(blocks), MergeFrom(old(blocks), i);
              && h == bs[l].start && (insertHeader <==> l == i)
              && available == old(available) + (if l < i then HDR else 0)
              && blocks == if l < i then JoinAt(bs, l) else bs
    {
      hide Ring, Tiles, FlagsMatch;
      BlockAt(i);
      h, insertHeader := header, true;
      if !used[prev[h]] {
        available := available + HDR;
        BlockAt(i - 1);
        h, insertHeader := prev[h], false;
        TakeIn(h, header, i - 1);
      }
    }

    /** Merges the right neighbour of block `l` at `h` into it, if that is free, and takes it off the list. */
    method MergeRight(h: nat, ghost l: nat, ghost merge: bool, ghost y: nat)
      requires Linked() && l < |blocks| && blocks[l].start == h
      requires merge <==> l + 1 < |blocks| && !blocks[l + 1].used
      requires merge ==> y == blocks[l + 1].start && y in free
      modifies this`available, this`next, this`prev, this`blocks, this`nextFree, this`prevFree, this`free
      ensures Linked() && available == old(available) + (if merge then HDR else 0)
      ensures blocks == if merge then JoinAt(old(blocks), l) else old(blocks)
      ensures free == if merge then Without(old(free), y) else old(free)
    {
      hide Ring, Tiles, FlagsMatch, Without;
      BlockAt(l);
      if !used[next[h]] {
        available := available + HDR;
        BlockAt(l + 1);
        var right := next[h];
        TakeIn(h, right, l);
        Unlist(right);
      }
    }

    /** The branch of rt_memheap_realloc that grows block `i` into the free block behind it. */
    method Grow(header: nat, need: nat, ghost i: nat)
      requires Valid() && i < |blocks| && blocks[i].start == header && blocks[i].used
      requires i < MergeTo(blocks, i) && HDR + need > blocks[i].span
      requires need + MINIALLOC < blocks[i + 1].span - HDR + (blocks[i].span - HDR)
      modifies this
      ensures Valid() && levels == old(levels) + [poolSize - available]
      ensures header + HDR + need <= old(blocks)[i + 1].End() && blocks == ResizeAt(old(blocks), i, need, HDR)
      ensures free == FreeAfterResize(old(free), old(blocks), i, header + HDR + need)
    {
      hide Ring, Tiles, NoFreeNeighbours, FlagsMatch, FreePayload, IsPeak, ListsFree, Without, ResizeAt;
      ghost var bs, fs, q := blocks, free, header + HDR + need;
      BlockAt(i);
      BlockAt(i + 1);
      ResizeAtChain(bs, i, need, HDR, start, Tail(), LEAST);
      ResizeListsFree(bs, fs, i, need, start, Tail());
      ResizedNotListed(bs, fs, i, need, start, Tail());
      var nextPtr := next[header];
      available := available - (need - (nextPtr - header - HDR));
      if poolSize - available > maxUsed {
        maxUsed := poolSize - available;
      }
      MoveBoundary(header, nextPtr, need, i);
      PeakGrows(old(maxUsed), levels, poolSize - available);
      levels := levels + [poolSize - available];
    }

    /** Takes the free block at `y` behind block `i` out of both lists and builds one at the new place. */
    method MoveBoundary(x: nat, y: nat, need: nat, ghost i: nat)
      requires Linked() && i + 1 < |blocks| && blocks[i].start == x && blocks[i].used && blocks[i + 1].start == y
        && !blocks[i + 1].used
      requires LEAST <= HDR + need && x + HDR + need + LEAST <= blocks[i + 1].End()
      requires y in free && x + HDR + need !in Without(free, y) && x + HDR + need != listHead
      modifies this`next, this`prev, this`used, this`blocks, this`nextFree, this`prevFree, this`free
      ensures Linked() && x + HDR + need <= old(blocks)[i + 1].End() && blocks == ResizeAt(old(blocks), i, need, HDR)
      ensures free == [x + HDR + need] + Without(old(free), y)
    {
      hide Ring, Tiles, FlagsMatch, Without;
      ghost var bs := blocks;
      Unlist(y);
      TakeIn(x, y, i);
      var q := x + HDR + need;
      CutOff(x, q, i);
      List(q);
      assert blocks == ResizeAt(bs, i, need, HDR);
    }

    /** The branch of rt_memheap_realloc that cuts block `i` in place. */
    method Shrink(header: nat, need: nat, ghost i: nat)
      requires Valid() && i < |blocks| && blocks[i].start == header && blocks[i].used
      requires MINIALLOC <= need && need + HDR + MINIALLOC < blocks[i].span - HDR
      modifies this
      ensures Valid() && levels == old(levels) + [poolSize - available]
      ensures header + HDR + need <= old(blocks)[MergeTo(old(blocks), i)].End()
        && blocks == ResizeAt(old(blocks), i, need, HDR)
      ensures free == FreeAfterResize(old(free), old(blocks), i, header + HDR + need)
    {
      hide Ring, Tiles, NoFreeNeighbours, FlagsMatch, FreePayload, IsPeak, ListsFree, Without, ResizeAt;
      ghost var bs, fs := blocks, free;
      BlockAt(i);
      BlockAt(MergeTo(bs, i));
      ResizeAtChain(bs, i, need, HDR, start, Tail(), LEAST);
      ResizeListsFree(bs, fs, i, need, start, Tail());
      ResizedNotListed(bs, fs, i, need, start, Tail());
      SplitOff(header, need, i);
      PeakGrows(maxUsed, levels, poolSize - available);
      levels := levels + [poolSize - available];
    }

    /** Splits the block at `header` after `need` bytes and merges the rest with a free successor. */
    method SplitOff(header: nat, need: nat, ghost i: nat)
      requires Linked() && i < |blocks| && blocks[i].start == header && blocks[i].used
      requires MINIALLOC <= need && need + HDR + MINIALLOC < blocks[i].span - HDR
      requires i < MergeTo(blocks, i) ==> blocks[i + 1].start in free
      requires header + HDR + need != listHead
      requires header + HDR + need !in if i < MergeTo(blocks, i) then Without(free, blocks[i + 1].start) else free
      modifies this`available, this`next, this`prev, this`used, this`blocks, this`nextFree, this`prevFree, this`free
      ensures Linked()
      ensures header + HDR + need <= old(blocks)[MergeTo(old(blocks), i)].End()
        && blocks == ResizeAt(old(blocks), i, need, HDR)
      ensures free == FreeAfterResize(old(free), old(blocks), i, header + HDR + need)
      ensures available == old(available) + old(blocks)[i].span - (HDR + need)
                           - (if MergeTo(old(blocks), i) == i then HDR else 0)
    {
      hide Linked, Without, JoinAt, ResizeAt;
      ghost var bs, r := blocks, MergeTo(blocks, i);
      BlockAt(i);
      BlockAt(r);
      var newPtr := header + need + HDR;
      CutOff(header, newPtr, i);
      assert blocks == Cut(bs, i, need);
      CutThenJoin(bs, i, need);
      MergeFree(newPtr, i + 1, r > i, bs[r].start);
      ListNew(newPtr, i + 1);
    }

    /** Merges the right neighbour of the unlisted free block `j`, if it is free: its bytes leave the account. */
    method MergeFree(newPtr: nat, ghost j: nat, ghost merge: bool, ghost y: nat)
      requires Linked() && j < |blocks| && blocks[j].start == newPtr
      requires merge <==> j + 1 < |blocks| && !blocks[j + 1].used
      requires merge ==> y == blocks[j + 1].start && y in free
      modifies this`available, this`next, this`prev, this`blocks, this`nextFree, this`prevFree, this`free
      ensures Linked() && available == old(available) - (if merge then old(blocks)[j + 1].span - HDR else 0)
      ensures blocks == if merge then JoinAt(old(blocks), j) else old(blocks)
      ensures free == if merge then Without(old(free), y) else old(free)
    {
      hide Ring, Tiles, FlagsMatch, Without;
      BlockAt(j);
      if !used[next[newPtr]] {
        BlockAt(j + 1);
        var freePtr := next[newPtr];
        available := available - (next[freePtr] - freePtr - HDR);
        TakeIn(newPtr, freePtr, j);
        Unlist(freePtr);
      }
    }

    /** Puts the free block `j` on the list and its bytes to the account. */
    method ListNew(newPtr: nat, ghost j: nat)
      requires Linked() && j < |blocks| && blocks[j].start == newPtr && newPtr !in free && newPtr != listHead
      modifies this`available, this`nextFree, this`prevFree, this`free
      ensures Linked() && free == [newPtr] + old(free) && available == old(available) + blocks[j].span - HDR
    {
      hide Ring, Tiles, FlagsMatch;
      List(newPtr);
      BlockAt(j);
      available := available + (next[newPtr] - newPtr - HDR);
    }

    /** pool_size - available_size for the chain `bs`. */
    ghost function Used(bs: seq<Block>): int {
      poolSize - FreePayload(bs, HDR)
    }

    /** The levels of use a reallocation goes through: none if it fails or nothing changes, two if the block moves,
        since both blocks are used in between, and one otherwise. `rest` is available_size afterwards. */
    ghost function Levels(bs: seq<Block>, fs: seq<nat>, p: nat, r: Option<nat>, need: nat, rest: int): seq<int>
      requires HDR <= p && LiveAt(bs, p - HDR)
    {
      var i := IndexOf(bs, p - HDR);
      if r.None? || Stays(bs, i, need) then []
      else if need > bs[i].span - HDR && !Grows(bs, i, need) then [Used(Via(bs, fs, need)), poolSize - rest]
      else [poolSize - rest]
    }

    /** rt_memheap_realloc for the live block with payload `ptr` and a rounded size. */
    method Resize(ptr: nat, need: nat) returns (r: Option<nat>)
      requires Valid() && IsLive(ptr) && MINIALLOC <= need
      modifies this, mem
      ensures Valid() && Branched(old(blocks), old(free), old(available), blocks, free, ptr, r, need)
      ensures levels == old(levels) + Levels(old(blocks), old(free), ptr, r, need, available)
      ensures r.None? ==> mem[..] == old(mem[..])
      ensures r.Some? ==> Reallocated(old(blocks), blocks, ptr, r.value, need, old(mem[..]), mem[..])
    {
      hide Ring, Tiles, NoFreeNeighbours, FlagsMatch, FreePayload, IsPeak, ListsFree, Without, ResizeAt, FreeAt,
        FreeAfterFree, FreeAfterResize, NoRoom, LiveKept, Moved, Reallocated, MovedTo, Via;
      ghost var bs, i, m := blocks, IndexOf(blocks, ptr - HDR), mem[..];
      ghost var b := bs[i];
      var header := ptr - HDR;
      BlockAt(i);
      assert b in Live(bs);
      var oldsize := next[header] - header - HDR;
      if need > oldsize {
        r := Enlarge(ptr, need, oldsize);
        return;
      }
      if need + HDR + MINIALLOC >= oldsize {
        StayComposes(bs, bs, b, b, need, m, start, Tail());
        return Some(ptr);
      }
      BlockAt(MergeTo(bs, i));
      ResizeAtChain(bs, i, need, HDR, start, Tail(), LEAST);
      Shrink(header, need, i);
      StayComposes(bs, blocks, b, Block(header, HDR + need, true), need, m, start, Tail());
      return Some(ptr);
    }

    /** The growing half: into the free block behind, or to another place. */
    method Enlarge(ptr: nat, need: nat, oldsize: nat) returns (r: Option<nat>)
      requires Valid() && IsLive(ptr) && MINIALLOC <= need && oldsize < need
      requires HDR + oldsize == LiveBlock(blocks, ptr).span
      modifies this, mem
      ensures Valid() && Branched(old(blocks), old(free), old(available), blocks, free, ptr, r, need)
      ensures levels == old(levels) + Levels(old(blocks), old(free), ptr, r, need, available)
      ensures r.None? ==> mem[..] == old(mem[..])
      ensures r.Some? ==> Reallocated(old(blocks), blocks, ptr, r.value, need, old(mem[..]), mem[..])
    {
      hide Ring, Tiles, NoFreeNeighbours, FlagsMatch, FreePayload, IsPeak, ListsFree, Without, ResizeAt, FreeAt,
        FreeAfterFree, FreeAfterResize, NoRoom, LiveKept, Moved, Reallocated, MovedTo, Via, Live;
      ghost var bs, i, m := blocks, IndexOf(blocks, ptr - HDR), mem[..];
      var header := ptr - HDR;
      BlockAt(i);
      LiveBlockIn(bs, ptr);
      var nextPtr := next[header];
      if !used[nextPtr] {
        BlockAt(i + 1);
        var nextsize := next[nextPtr] - nextPtr - HDR;
        if nextsize + oldsize > need + MINIALLOC {
          ResizeAtChain(bs, i, need, HDR, start, Tail(), LEAST);
          Grow(header, need, i);
          StayComposes(bs, blocks, bs[i], Block(header, HDR + need, true), need, m, start, Tail());
          return Some(ptr);
        }
      }
      r := Move(ptr, need);
    }

    /** The moving branch: a new block, then the old one freed. */
    method Move(ptr: nat, need: nat) returns (r: Option<nat>)
      requires Valid() && IsLive(ptr)
      modifies this, mem
      ensures Valid() && (r.None? <==> NoRoom(old(blocks), old(free), old(available), need))
      ensures r.None? ==>
        blocks == old(blocks) && free == old(free) && mem[..] == old(mem[..]) && levels == old(levels)
      ensures r.Some? ==>
        && MovedTo(old(blocks), old(free), blocks, free, ptr, r.value, need)
        && levels == old(levels) + [Used(Via(old(blocks), old(free), need)), poolSize - available]
      ensures r.Some? ==> Reallocated(old(blocks), blocks, ptr, r.value, need, old(mem[..]), mem[..])
    {
      hide Ring, Tiles, NoFreeNeighbours, FlagsMatch, FreePayload, IsPeak, ListsFree, Without, FreeAt, FreeAfterFree,
        FreeAfterAlloc, AllocAt, Moved, LiveKept, Reallocated, Via, MovedTo, IndexAt, Granted, Live;
      ghost var bs, fs, b, m := blocks, free, LiveBlock(blocks, ptr), mem[..];
      LiveBlockIn(bs, ptr);
      BlockAt(IndexOf(bs, ptr - HDR));
      var size := next[ptr - HDR] - ptr;
      ghost var k := FirstFit(blocks, free, Need(need));
      ghost var i := if k < |free| then ListedBlock(k) else 0;
      r := Alloc(need);
      if r.Some? {
        ghost var cs, gs, g := blocks, free, Granted(bs[i], Need(need), HDR, LEAST);
        AllocAtChain(bs, i, Need(need), HDR, LEAST, start, Tail(), LEAST);
        ViaIs(bs, fs, cs, gs, need, r.value);
        GrantedFits(bs[i], Need(need));
        Carry(ptr, r.value, if size < need then size else need, b, g);
        MovedToIs(bs, fs, cs, gs, blocks, free, ptr, r.value, need);
        MoveComposes(bs, cs, blocks, b, g, need, m, mem[..], start, Tail());
      }
    }

    /** Copies `n` bytes from the live block `b` to the live block `g` and frees `b`. */
    method Carry(ptr: nat, newPtr: nat, n: nat, ghost b: Block, ghost g: Block)
      requires Valid() && b in Live(blocks) && g in Live(blocks) && b != g
      requires ptr == b.start + HDR && newPtr == g.start + HDR && HDR + n <= b.span && HDR + n <= g.span
      modifies this, mem
      ensures Valid() && Live(blocks) == Live(old(blocks)) - {b} && levels == old(levels) + [poolSize - available]
      ensures LiveAt(old(blocks), b.start)
      ensures var j := IndexOf(old(blocks), b.start);
              blocks == FreeAt(old(blocks), j) && free == FreeAfterFree(old(free), old(blocks), j)
      ensures Moved(old(mem[..]), ptr, mem[..], newPtr, n)
      ensures forall c :: 0 <= c < mem.Length && !(g.start + HDR <= c < g.End()) ==> mem[c] == old(mem[c])
    {
      hide Ring, Tiles, NoFreeNeighbours, FlagsMatch, FreePayload, IsPeak, ListsFree, Without, FreeAt, FreeAfterFree,
        Moved;
      ghost var cs := blocks;
      LiveBlockIs(cs, b, start, Tail());
      LiveApart(cs, b, g, start, Tail());
      LiveApart(cs, g, b, start, Tail());
      FreeAtChain(cs, IndexOf(cs, ptr - HDR), HDR, start, Tail(), LEAST);
      MemCopy(mem, newPtr, ptr, n);
      Free(Some(ptr));
    }

    /** rt_memheap_realloc. `newsize` does not wrap when rounded up. */
    method Realloc(ptr: Option<nat>, newsize: nat) returns (r: Option<nat>)
      requires Valid() && (ptr.Some? ==> IsLive(ptr.value))
      modifies this, mem
      ensures Valid()
      // to nothing
      ensures newsize == 0 ==> r.None? && mem[..] == old(mem[..]) && maxUsed == old(maxUsed)
      ensures newsize == 0 && ptr.None? ==> blocks == old(blocks) && free == old(free) && levels == old(levels)
      ensures newsize == 0 && ptr.Some? ==>
        var i := IndexOf(old(blocks), ptr.value - HDR);
        && blocks == FreeAt(old(blocks), i) && free == FreeAfterFree(old(free), old(blocks), i)
        && levels == old(levels) + [poolSize - available]
      // from nothing
      ensures newsize > 0 && ptr.None? ==>
        && (r.None? <==> NoRoom(old(blocks), old(free), old(available), Need(newsize)))
        && mem[..] == old(mem[..])
      ensures newsize > 0 && ptr.None? && r.None? ==>
        blocks == old(blocks) && free == old(free) && levels == old(levels)
      ensures newsize > 0 && ptr.None? && r.Some? ==>
        var need := Need(Need(newsize));
        && Allocated(old(blocks), old(free), blocks, free, FirstFit(old(blocks), old(free), need), need, r.value)
        && levels == old(levels) + [poolSize - available]
      // from one size to another
      ensures newsize > 0 && ptr.Some? ==>
        && Branched(old(blocks), old(free), old(available), blocks, free, ptr.value, r, Need(newsize))
        && levels == old(levels) + Levels(old(blocks), old(free), ptr.value, r, Need(newsize), available)
      ensures newsize > 0 && ptr.Some? && r.None? ==> mem[..] == old(mem[..])
      ensures newsize > 0 && ptr.Some? && r.Some? ==>
        Reallocated(old(blocks), blocks, ptr.value, r.value, Need(newsize), old(mem[..]), mem[..])
    {
      hide Ring, Tiles, FlagsMatch, NoFreeNeighbours, FreePayload, IsPeak, ListsFree, FreeAt, FreeAfterFree,
        Allocated, Branched, Reallocated, Grows, Stays, Via;
      if newsize == 0 {
        Free(ptr);
        return None;
      }
      var need := Need(newsize);
      if ptr.None? {
        r := Alloc(need);
        return;
      }
      r := Resize(ptr.value, need);
    }
  }

  /** The live block with payload `p`. */
  ghost function LiveBlock(bs: seq<Block>, p: nat): Block
    requires HDR <= p && LiveAt(bs, p - HDR)
  {
    bs[IndexOf(bs, p - HDR)]
  }

  /** The block with payload `p` became the one with payload `p'`, of at least `need` bytes; the bytes both have room
      for moved along, and every other live block is still there with its payload. */
  ghost predicate Reallocated(bs: seq<Block>, cs: seq<Block>, p: nat, p': nat, need: nat, m: seq<int>, m': seq<int>)
    requires HDR <= p && LiveAt(bs, p - HDR)
  {
    && HDR <= p' && LiveAt(cs, p' - HDR)
    && var b, b' := LiveBlock(bs, p), LiveBlock(cs, p');
    && Live(cs) == Live(bs) - {b} + {b'} && HDR + need <= b'.span
    && HDR <= b.span && Moved(m, p, m', p', Min(b.span - HDR, need))
    && LiveKept(m, m', bs, {b})
  }

  /** The live blocks other than `except` have kept their payload. */
  ghost predicate LiveKept(m: seq<int>, m': seq<int>, bs: seq<Block>, except: set<Block>) {
    forall b :: b in Live(bs) && b !in except ==> Kept(m, m', b)
  }

  ghost predicate Kept(m: seq<int>, m': seq<int>, b: Block) {
    forall c :: b.start + HDR <= c < b.End() && c < |m| && c < |m'| ==> m'[c] == m[c]
  }

  /** Keeping a block in place, with its end moved or not, is a reallocation too. */
  lemma StayComposes(bs: seq<Block>, cs: seq<Block>, b: Block, b': Block, need: nat, m: seq<int>, lo: nat, hi: nat)
    requires Tiles(bs, lo, hi, LEAST) && Tiles(cs, lo, hi, LEAST) && b in Live(bs) && HDR <= b.span
    requires b'.used && b'.start == b.start && HDR + need <= b'.span
      && (Live(cs) == Live(bs) - {b} + {b'} || (cs == bs && b' == b))
    ensures LiveAt(bs, b.start) && Reallocated(bs, cs, b.start + HDR, b.start + HDR, need, m, m)
  {
    hide Tiles;
    assert cs == bs ==> Live(bs) == Live(bs) - {b} + {b};
    LiveBlockIs(bs, b, lo, hi);
    LiveBlockIs(cs, b', lo, hi);
  }

  /** Block `i` can grow to `need` bytes: the free block behind it leaves more than the minimum. */
  ghost predicate Grows(bs: seq<Block>, i: nat, need: nat)
    requires i < |bs|
  {
    var room := bs[i].span - HDR;
    need > room && i < MergeTo(bs, i) && bs[i + 1].span - HDR + room > need + MINIALLOC
  }

  /** What is left when block `i` shrinks to `need` bytes is not worth having. */
  ghost predicate Stays(bs: seq<Block>, i: nat, need: nat)
    requires i < |bs|
  {
    need <= bs[i].span - HDR <= need + HDR + MINIALLOC
  }

  /** The chain after rt_memheap_alloc(need) took the first block of the free list with room. */
  ghost function Via(bs: seq<Block>, fs: seq<nat>, need: nat): seq<Block> {
    var k := FirstFit(bs, fs, Need(need));
    if k < |fs| && IndexAt(bs, fs[k]) < |bs| && HDR + Need(need) <= bs[IndexAt(bs, fs[k])].span
    then AllocAt(bs, IndexAt(bs, fs[k]), Need(need), HDR, LEAST) else bs
  }

  /** The block with payload `p` moved to `p'`: the first block of the free list with room was taken for it, and the old
      block was freed. */
  ghost predicate MovedTo(bs: seq<Block>, fs: seq<nat>, cs: seq<Block>, gs: seq<nat>, p: nat, p': nat, need: nat)
    requires HDR <= p
  {
    var k, via := FirstFit(bs, fs, Need(need)), Via(bs, fs, need);
    && k < |fs| && p' == fs[k] + HDR && IndexAt(bs, fs[k]) < |bs| && LiveAt(via, p - HDR)
    && var j := IndexOf(via, p - HDR);
    && cs == FreeAt(via, j)
    && gs == FreeAfterFree(FreeAfterAlloc(fs, bs[IndexAt(bs, fs[k])], Need(need)), via, j)
  }

  lemma ViaIs(bs: seq<Block>, fs: seq<nat>, cs: seq<Block>, gs: seq<nat>, need: nat, p: nat)
    requires Allocated(bs, fs, cs, gs, FirstFit(bs, fs, Need(need)), Need(need), p)
    ensures Via(bs, fs, need) == cs
  {
  }

  lemma MovedToIs(bs: seq<Block>, fs: seq<nat>, cs: seq<Block>, gs: seq<nat>, ds: seq<Block>, hs: seq<nat>, p: nat,
                  p': nat, need: nat)
    requires Allocated(bs, fs, cs, gs, FirstFit(bs, fs, Need(need)), Need(need), p')
    requires HDR <= p && LiveAt(cs, p - HDR)
    requires var j := IndexOf(cs, p - HDR); ds == FreeAt(cs, j) && hs == FreeAfterFree(gs, cs, j)
    ensures MovedTo(bs, fs, ds, hs, p, p', need)
  {
  }

  /** What rt_memheap_realloc does with the block of payload `p`: it grows into a free block behind that leaves more
      than the minimum, moves if it cannot grow, stays if the rest is not worth having, and is cut otherwise; only the
      move can fail, and then nothing changes. */
  ghost predicate Branched(bs: seq<Block>, fs: seq<nat>, available: int, cs: seq<Block>, gs: seq<nat>, p: nat,
                           r: Option<nat>, need: nat)
    requires HDR <= p && LiveAt(bs, p - HDR)
  {
    var i := IndexOf(bs, p - HDR);
    var moves := need > bs[i].span - HDR && !Grows(bs, i, need);
    && (r.None? <==> moves && NoRoom(bs, fs, available, need))
    && (r.None? || Stays(bs, i, need) ==> cs == bs && gs == fs)
    && (moves && r.Some? ==> MovedTo(bs, fs, cs, gs, p, r.value, need))
    && (!moves ==> r == Some(p))
    && (!moves && !Stays(bs, i, need) ==>
          && p + need <= bs[MergeTo(bs, i)].End() && cs == ResizeAt(bs, i, need, HDR)
          && gs == FreeAfterResize(fs, bs, i, p + need))
  }

  /** Different live blocks lie apart. */
  lemma LiveApart(bs: seq<Block>, b: Block, c: Block, lo: nat, hi: nat)
    requires Tiles(bs, lo, hi, LEAST) && b in Live(bs) && c in Live(bs) && b != c
    ensures b.End() <= c.start || c.End() <= b.start
    ensures LEAST <= b.span && b.End() <= hi
  {
    var i :| 0 <= i < |bs| && bs[i] == b;
    var j :| 0 <= j < |bs| && bs[j] == c;
    TilesAt(bs, i, lo, hi, LEAST);
    if i < j { Apart(bs, i, j, lo, hi, LEAST); } else { Apart(bs, j, i, lo, hi, LEAST); }
  }

  /** rt_memheap_alloc finds no block for `size` bytes. */
  ghost predicate NoRoom(bs: seq<Block>, fs: seq<nat>, available: int, size: nat) {
    Need(size) >= available || FirstFit(bs, fs, Need(size)) >= |fs|
  }

  /** Allocating `g`, copying to it and freeing `b` is a reallocation. */
  lemma MoveComposes(bs: seq<Block>, cs: seq<Block>, ds: seq<Block>, b: Block, g: Block, need: nat,
                     m: seq<int>, m': seq<int>, lo: nat, hi: nat)
    requires Tiles(cs, lo, hi, LEAST) && hi <= |m| == |m'| && HDR <= b.span
    requires Moved(m, b.start + HDR, m', g.start + HDR, Min(b.span - HDR, need))
    requires forall c :: 0 <= c < |m| && !(g.start + HDR <= c < g.End()) ==> m'[c] == m[c]
    requires Tiles(bs, lo, hi, LEAST) && Tiles(ds, lo, hi, LEAST) && b in Live(bs) && g !in Live(bs)
    requires Live(cs) == Live(bs) + {g} && Live(ds) == Live(cs) - {b} && HDR + need <= g.span
    ensures LiveAt(bs, b.start) && Reallocated(bs, ds, b.start + HDR, g.start + HDR, need, m, m')
  {
    hide Tiles;
    forall c | c in Live(bs) ensures Kept(m, m', c) {
      assert c in Live(cs) && g in Live(cs);
      LiveApart(cs, c, g, lo, hi);
    }
    LiveBlockIs(bs, b, lo, hi);
    LiveBlockIs(ds, g, lo, hi);
  }

  lemma LiveBlockIn(bs: seq<Block>, p: nat)
    requires HDR <= p && LiveAt(bs, p - HDR)
    ensures LiveBlock(bs, p) in Live(bs) && LiveBlock(bs, p).start == p - HDR
  {
  }

  lemma GrantedFits(b: Block, need: nat)
    requires HDR + need <= b.span
    ensures var g := Granted(b, need, HDR, LEAST); g.start == b.start && HDR + need <= g.span
  {
  }

  lemma LiveBlockIs(bs: seq<Block>, b: Block, lo: nat, hi: nat)
    requires Tiles(bs, lo, hi, LEAST) && b in Live(bs)
    ensures LiveAt(bs, b.start) && LiveBlock(bs, b.start + HDR) == b
  {
    assert bs[IndexOf(bs, b.start)] in Live(bs);
    StartsDiffer(bs, lo, hi, LEAST);
  }

  /** Block `l` with its successor taken in. */
  function JoinAt(bs: seq<Block>, l: nat): seq<Block>
    requires l + 1 < |bs|
  {
    bs[..l] + [Block(bs[l].start, Length(bs[l].start, bs[l + 1].End()), bs[l].used)] + bs[l + 2..]
  }

  /** Block `i` cut to `need` bytes, the rest free. */
  function Cut(bs: seq<Block>, i: nat, need: nat): seq<Block>
    requires i < |bs| && HDR + need <= bs[i].span
  {
    var q := bs[i].start + HDR + need;
    bs[..i] + [Block(bs[i].start, HDR + need, bs[i].used), Rest(q, bs[i].End())] + bs[i + 1..]
  }

  lemma CutThenUse(bs: seq<Block>, i: nat, need: nat)
    requires i < |bs| && HDR + need <= bs[i].span
    ensures var cs := if bs[i].span >= HDR + need + LEAST then Cut(bs, i, need) else bs;
            i < |cs| && cs[i].start == bs[i].start && cs[i := cs[i].(used := true)] == AllocAt(bs, i, need, HDR, LEAST)
  {
  }

  /** `p` is the payload of the first block of the free list with room, taken off the list and cut to size. */
  ghost predicate Allocated(bs: seq<Block>, fs: seq<nat>, cs: seq<Block>, gs: seq<nat>, k: nat, need: nat, p: nat) {
    && k < |fs| && p == fs[k] + HDR
    && var i := IndexAt(bs, fs[k]);
    && i < |bs| && HDR + need <= bs[i].span
    && cs == AllocAt(bs, i, need, HDR, LEAST)
    && gs == FreeAfterAlloc(fs, bs[i], need)
  }

  /** Merging left and then right is what freeing a block amounts to. */
  lemma JoinsAreFreeAt(bs: seq<Block>, i: nat)
    requires i < |bs| && bs[i].used
    ensures var l, r, cs := MergeFrom(bs, i), MergeTo(bs, i), bs[i := bs[i].(used := false)];
            var ds := if l < i then JoinAt(cs, l) else cs;
            && MergeFrom(cs, i) == l && l < |ds| && ds[l].start == bs[l].start
            && (r > i ==> l + 1 < |ds| && ds[l + 1] == bs[r])
            && (r > i <==> l + 1 < |ds| && !ds[l + 1].used)
            && FreeAt(bs, i) == if r > i then JoinAt(ds, l) else ds
  {
    hide JoinAt, FreeAt, Length;
    var l, r, cs := MergeFrom(bs, i), MergeTo(bs, i), bs[i := bs[i].(used := false)];
    var m := Block(bs[l].start, Length(bs[l].start, bs[i].End()), false);
    var ds := bs[..l] + [m] + bs[i + 1..];
    LeftMerged(bs, i);
    assert (if l < i then JoinAt(cs, l) else cs) == ds;
    RightMerged(bs, l, i + 1, m);
    FreeAtIs(bs, i);
  }

  lemma FreeAtIs(bs: seq<Block>, i: nat)
    requires i < |bs|
    ensures var l, r := MergeFrom(bs, i), MergeTo(bs, i);
            FreeAt(bs, i) == bs[..l] + [Block(bs[l].start, Length(bs[l].start, bs[r].End()), false)] + bs[r + 1..]
  {
  }

  lemma LeftMerged(bs: seq<Block>, i: nat)
    requires i < |bs|
    ensures var l, cs := MergeFrom(bs, i), bs[i := bs[i].(used := false)];
            && MergeFrom(cs, i) == l
            && (if l < i then JoinAt(cs, l) else cs)
               == bs[..l] + [Block(bs[l].start, Length(bs[l].start, bs[i].End()), false)] + bs[i + 1..]
  {
    var l, cs := MergeFrom(bs, i), bs[i := bs[i].(used := false)];
    assert cs[..i] == bs[..i] && cs[i + 1..] == bs[i + 1..];
    if l < i { JoinLeft(bs, cs, i); } else { assert cs == cs[..i] + [cs[i]] + cs[i + 1..]; }
  }

  /** Block `m` in front of the blocks of `bs` from `k` on takes in the first of them. */
  lemma RightMerged(bs: seq<Block>, l: nat, k: nat, m: Block)
    requires l <= |bs| && k <= |bs|
    ensures var ds := bs[..l] + [m] + bs[k..];
            && l < |ds| && ds[l] == m && (k < |bs| <==> l + 1 < |ds|)
            && (k < |bs| ==>
                  && ds[l + 1] == bs[k]
                  && JoinAt(ds, l) == bs[..l] + [Block(m.start, Length(m.start, bs[k].End()), m.used)] + bs[k + 1..])
  {
    var ds := bs[..l] + [m] + bs[k..];
    assert ds[..l] == bs[..l] && ds[l + 1..] == bs[k..];
    TailFrom(ds, bs, l, k);
  }

  lemma JoinLeft(bs: seq<Block>, cs: seq<Block>, i: nat)
    requires 0 < i < |bs| == |cs| && cs[..i] == bs[..i] && cs[i + 1..] == bs[i + 1..]
    requires cs[i].start == bs[i].start && cs[i].span == bs[i].span
    ensures JoinAt(cs, i - 1)
            == bs[..i - 1]
               + [Block(bs[i - 1].start, Length(bs[i - 1].start, bs[i].End()), bs[i - 1].used)]
               + bs[i + 1..]
  {
    assert cs[i - 1] == cs[..i][i - 1] == bs[i - 1];
    assert cs[..i - 1] == bs[..i][..i - 1] == bs[..i - 1];
  }

  /** Two chains that go on alike. */
  lemma TailFrom(ds: seq<Block>, bs: seq<Block>, l: nat, k: nat)
    requires l < |ds| && k <= |bs| && ds[l + 1..] == bs[k..]
    ensures |ds| - l - 1 == |bs| - k
    ensures k < |bs| ==> ds[l + 1] == bs[k] && ds[l + 2..] == bs[k + 1..]
  {
    if k < |bs| {
      assert ds[l + 1] == ds[l + 1..][0] && bs[k] == bs[k..][0];
      assert ds[l + 2..] == ds[l + 1..][1..] && bs[k + 1..] == bs[k..][1..];
    }
  }

  /** Cutting block `i` and joining the rest with a free successor is resizing. */
  lemma CutThenJoin(bs: seq<Block>, i: nat, need: nat)
    requires i < |bs| && bs[i].used && HDR + need <= bs[i].span
    requires bs[i].start + HDR + need <= bs[MergeTo(bs, i)].End()
    ensures var r, cs := MergeTo(bs, i), Cut(bs, i, need);
            && i + 1 < |cs| && cs[i + 1] == Rest(bs[i].start + HDR + need, bs[i].End())
            && (r > i ==> i + 2 < |cs| && cs[i + 2] == bs[r])
            && (r > i <==> i + 2 < |cs| && !cs[i + 2].used)
            && ResizeAt(bs, i, need, HDR) == (if r > i then JoinAt(cs, i + 1) else cs)
            && i + 1 < |ResizeAt(bs, i, need, HDR)|
               && ResizeAt(bs, i, need, HDR)[i + 1] == Rest(bs[i].start + HDR + need, bs[r].End())
  {
    var r, cs := MergeTo(bs, i), Cut(bs, i, need);
    assert cs[..i + 1] == bs[..i] + [Block(bs[i].start, HDR + need, true)];
    assert cs[i + 1] == Rest(bs[i].start + HDR + need, bs[i].End()) && cs[i + 2..] == bs[i + 1..];
    TailFrom(cs, bs, i + 1, i + 1);
  }
}
