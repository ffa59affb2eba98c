/**
 rt_realloc of rt-thread/src/mem.c among other threads. The heap lock is released between its allocation, its copy and
 its free, so that other threads may call the heap and write to their own blocks in between.
 */
module SmallHeapThreads {
  import opened Machine
  import opened Tiling
  import opened TilingOps
  import opened HeapCells
  import opened Memory
  import opened SmallHeap

  /** The pointers `owned` of other threads point to the payloads of the live blocks `theirs`, none of which is in
      `keep`. */
  ghost predicate Theirs(bs: seq<Block>, owned: seq<nat>, theirs: seq<Block>, keep: set<Block>) {
    && |owned| == |theirs| && keep <= Live(bs)
    && (forall i :: 0 <= i < |theirs| ==>
          owned[i] == theirs[i].start + HDR && theirs[i] in Live(bs) && theirs[i] !in keep)
    && (forall i, j :: 0 <= i < j < |theirs| ==> theirs[i] != theirs[j])
  }

  /** The blocks in `keep` have kept their payload. */
  ghost predicate AllKept(m: seq<int>, m': seq<int>, keep: set<Block>) {
    |m| == |m'| && forall b :: b in keep ==> Kept(m, m', b)
  }

  /** `s` without its element `k`. */
  function Omit<T>(s: seq<T>, k: nat): seq<T>
    requires k < |s|
  {
    s[..k] + s[k + 1..]
  }

  lemma TheirsOmit(bs: seq<Block>, cs: seq<Block>, owned: seq<nat>, theirs: seq<Block>, keep: set<Block>, k: nat)
    requires Theirs(bs, owned, theirs, keep) && k < |theirs| && Live(cs) == Live(bs) - {theirs[k]}
    ensures Theirs(cs, Omit(owned, k), Omit(theirs, k), keep)
  {
    var rest := Omit(theirs, k);
    assert forall i :: 0 <= i < |rest| ==> rest[i] == theirs[if i < k then i else i + 1];
    assert forall i :: 0 <= i < |rest| ==> Omit(owned, k)[i] == owned[if i < k then i else i + 1];
  }

  lemma TheirsMore(bs: seq<Block>, cs: seq<Block>, owned: seq<nat>, theirs: seq<Block>, keep: set<Block>, g: Block)
    requires Theirs(bs, owned, theirs, keep) && Live(cs) == Live(bs) + {g} && g !in Live(bs)
    ensures Theirs(cs, owned + [g.start + HDR], theirs + [g], keep) && Theirs(cs, owned, theirs, keep + {g})
  {
  }

  lemma TheirsChange(bs: seq<Block>, cs: seq<Block>, owned: seq<nat>, theirs: seq<Block>, keep: set<Block>, k: nat,
                     b: Block, hi: nat)
    requires Tiles(bs, 0, hi, LEAST) && Theirs(bs, owned, theirs, keep) && k < |theirs| && b.start == theirs[k].start
    requires Live(cs) == Live(bs) - {theirs[k]} + {b}
    ensures Theirs(cs, owned, theirs[k := b], keep)
  {
    StartsDiffer(bs, 0, hi, LEAST);
  }

  /** Another thread calls rt_malloc. */
  method TheyAllocate(heap: Heap, size: nat, owned: seq<nat>, ghost theirs: seq<Block>, ghost keep: set<Block>)
      returns (now: seq<nat>, ghost theirs': seq<Block>)
    requires heap.Valid() && heap.Returns(size) && Theirs(heap.blocks, owned, theirs, keep)
    modifies heap, heap.mem
    ensures heap.Valid() && Theirs(heap.blocks, now, theirs', keep) && AllKept(old(heap.mem[..]), heap.mem[..], keep)
  {
    hide Linked, Tiles, NoFreeNeighbours, OnBoundaries, LowestFree, UsedSpan, FreePayload, LiveKept, AllocAt, FirstFit,
      Live, Kept;
    ghost var bs, m := heap.blocks, heap.mem[..];
    KeptAll(m, bs, {});
    KeptFrom(m, m, bs, keep, {});
    now, theirs' := owned, theirs;
    var r := heap.Malloc(size);
    if r.Some? {
      ghost var i := FirstFit(bs, Need(size));
      AllocAtChain(bs, i, Need(size), HDR, CUT, 0, heap.HeapEnd(), LEAST);
      ghost var g := Granted(bs[i], Need(size), HDR, CUT);
      TheirsMore(bs, heap.blocks, owned, theirs, keep, g);
      now, theirs' := owned + [r.value], theirs + [g];
      KeptFrom(m, heap.mem[..], bs, keep, {});
    }
  }

  lemma KeptFrom(m: seq<int>, m': seq<int>, bs: seq<Block>, keep: set<Block>, except: set<Block>)
    requires LiveKept(m, m', bs, except) && keep <= Live(bs) && keep !! except && |m| == |m'|
    ensures AllKept(m, m', keep)
  {
  }

  /** Another thread frees one of its blocks. */
  method TheyFree(heap: Heap, k: nat, owned: seq<nat>, ghost theirs: seq<Block>, ghost keep: set<Block>)
      returns (now: seq<nat>, ghost theirs': seq<Block>)
    requires heap.Valid() && Theirs(heap.blocks, owned, theirs, keep) && k < |owned|
    modifies heap, heap.mem
    ensures heap.Valid() && Theirs(heap.blocks, now, theirs', keep) && AllKept(old(heap.mem[..]), heap.mem[..], keep)
  {
    hide Linked, Tiles, NoFreeNeighbours, OnBoundaries, LowestFree, UsedSpan, FreePayload, LiveKept, FreeAt, Live, Kept;
    ghost var bs, b, m := heap.blocks, theirs[k], heap.mem[..];
    BlockAtIs(bs, b, heap.HeapEnd());
    FreeAtChain(bs, IndexOf(bs, b.start), HDR, 0, heap.HeapEnd(), LEAST);
    PayloadInside(bs, b, heap.HeapEnd());
    heap.Free(Some(owned[k]));
    TheirsOmit(bs, heap.blocks, owned, theirs, keep, k);
    KeptFrom(m, heap.mem[..], bs, keep, {b});
    return Omit(owned, k), Omit(theirs, k);
  }

  lemma PayloadInside(bs: seq<Block>, b: Block, hi: nat)
    requires Tiles(bs, 0, hi, LEAST) && b in Live(bs)
    ensures LEAST <= b.span && b.End() <= hi
  {
    var i :| 0 <= i < |bs| && bs[i] == b;
    TilesAt(bs, i, 0, hi, LEAST);
  }

  /** Another thread writes into one of its blocks. */
  method TheyWrite(heap: Heap, k: nat, offset: nat, v: int, owned: seq<nat>, ghost theirs: seq<Block>,
                   ghost keep: set<Block>)
    requires heap.Valid() && Theirs(heap.blocks, owned, theirs, keep) && k < |owned|
    modifies heap.mem
    ensures heap.Valid() && AllKept(old(heap.mem[..]), heap.mem[..], keep)
  {
    hide Linked, Tiles, NoFreeNeighbours, OnBoundaries, LowestFree, UsedSpan, FreePayload, LiveKept, Live, Kept;
    ghost var bs, b, m := heap.blocks, theirs[k], heap.mem[..];
    PayloadInside(bs, b, heap.HeapEnd());
    BlockAtIs(bs, b, heap.HeapEnd());
    heap.HeaderAt(IndexOf(bs, b.start));
    var p := owned[k];
    KeptAll(m, bs, {});
    KeptFrom(m, m, bs, keep, {});
    if p + offset < heap.mem[p - HDR + 4] {
      heap.mem[p + offset] := v;
      PayloadWrite(m, heap.mem[..], bs, b, heap.HeapEnd());
      EndUntouched(m, heap.mem[..], b, heap.HeapEnd());
      KeptFrom(m, heap.mem[..], bs, keep, {b});
    }
  }

  lemma EndUntouched(m: seq<int>, m': seq<int>, b: Block, hi: nat)
    requires b.End() <= hi && hi + HDR <= |m| == |m'|
    requires forall c :: 0 <= c < |m| && !(b.start + HDR <= c < b.End()) ==> m'[c] == m[c]
    ensures m'[hi + 2] == m[hi + 2] && m'[hi + 4] == m[hi + 4]
  {
  }

  /** Another thread shrinks one of its blocks in place. */
  method TheyShrink(heap: Heap, k: nat, need: nat, owned: seq<nat>, ghost theirs: seq<Block>, ghost keep: set<Block>)
      returns (ghost theirs': seq<Block>)
    requires heap.Valid() && Theirs(heap.blocks, owned, theirs, keep) && k < |owned|
    modifies heap, heap.mem
    ensures heap.Valid() && Theirs(heap.blocks, owned, theirs', keep) && AllKept(old(heap.mem[..]), heap.mem[..], keep)
  {
    hide Linked, Tiles, NoFreeNeighbours, OnBoundaries, LowestFree, UsedSpan, FreePayload, LiveKept, Live, Kept,
      ResizeAt;
    ghost var bs, b, m := heap.blocks, theirs[k], heap.mem[..];
    PayloadInside(bs, b, heap.HeapEnd());
    BlockAtIs(bs, b, heap.HeapEnd());
    ghost var i := IndexOf(bs, b.start);
    heap.HeaderAt(i);
    heap.HeaderAt(MergeTo(bs, i));
    var p := owned[k];
    theirs' := theirs;
    KeptAll(m, bs, {});
    KeptFrom(m, m, bs, keep, {});
    if 0 < need && need % ALIGN_SIZE == 0 && need + HDR + MIN_SIZE < heap.mem[p - HDR + 4] - p {
      ResizeAtChain(bs, i, need, HDR, 0, heap.HeapEnd(), LEAST);
      heap.Shrink(p - HDR, need, i);
      ghost var b' := Block(b.start, HDR + need, true);
      TheirsChange(bs, heap.blocks, owned, theirs, keep, k, b', heap.HeapEnd());
      theirs' := theirs[k := b'];
      KeptFrom(m, heap.mem[..], bs, keep, {b});
    }
  }

  /** Any number of calls and writes of other threads: the blocks in `keep`, which are not theirs, stay live and keep
      their bytes. */
  method OtherThreads(heap: Heap, owned: seq<nat>, ghost theirs: seq<Block>, ghost keep: set<Block>)
      returns (now: seq<nat>, ghost theirs': seq<Block>)
    requires heap.Valid() && Theirs(heap.blocks, owned, theirs, keep)
    modifies heap, heap.mem
    ensures heap.Valid() && Theirs(heap.blocks, now, theirs', keep) && AllKept(old(heap.mem[..]), heap.mem[..], keep)
  {
    hide Heap.Valid, Theirs, Kept;
    now, theirs' := owned, theirs;
    ghost var m := heap.mem[..];
    var turns: int := *;
    AllKeptSelf(m, keep);
    while turns > 0
      invariant heap.Valid() && Theirs(heap.blocks, now, theirs', keep) && AllKept(m, heap.mem[..], keep)
    {
      ghost var m1 := heap.mem[..];
      var choice: int, k: nat, n: nat, v: int := *, *, *, *;
      if choice == 0 && heap.Returns(n) {
        now, theirs' := TheyAllocate(heap, n, now, theirs', keep);
      } else if choice == 1 && k < |now| {
        now, theirs' := TheyFree(heap, k, now, theirs', keep);
      } else if choice == 2 && k < |now| {
        TheyWrite(heap, k, n, v, now, theirs', keep);
      } else if k < |now| {
        theirs' := TheyShrink(heap, k, n, now, theirs', keep);
      } else {
        AllKeptSelf(m1, keep);
      }
      AllKeptTrans(m, m1, heap.mem[..], keep);
      turns := turns - 1;
    }
  }

  lemma AllKeptSelf(m: seq<int>, keep: set<Block>)
    ensures AllKept(m, m, keep)
  {
  }

  lemma AllKeptTrans(m: seq<int>, m1: seq<int>, m2: seq<int>, keep: set<Block>)
    requires AllKept(m, m1, keep) && AllKept(m1, m2, keep)
    ensures AllKept(m, m2, keep)
  {
    forall b | b in keep ensures Kept(m, m2, b) {
      assert Kept(m, m1, b) && Kept(m1, m2, b);
    }
  }

  /** The moving branch of rt_realloc with other threads at work whenever the lock is free: the bytes both blocks have
      room for arrive, the old block is freed, and on NULL nothing changed. */
  method MoveAmongOthers(heap: Heap, rmem: nat, need: nat, owned: seq<nat>, ghost theirs: seq<Block>)
      returns (r: Option<nat>, now: seq<nat>, ghost theirs': seq<Block>)
    requires heap.Valid() && heap.IsLive(rmem) && 0 < need && need % ALIGN_SIZE == 0 && heap.Returns(need)
    requires Theirs(heap.blocks, owned, theirs, {BlockAt(heap.blocks, rmem - HDR)})
    modifies heap, heap.mem
    ensures heap.Valid()
    ensures r.Some? <==> Served(old(heap.blocks), Need(need), heap.HeapEnd())
    ensures r.None? ==> heap.blocks == old(heap.blocks) && heap.mem[..] == old(heap.mem[..])
    ensures r.Some? ==>
      && HDR <= r.value && LiveAt(heap.blocks, r.value - HDR)
      && var b, g := BlockAt(old(heap.blocks), rmem - HDR), BlockAt(heap.blocks, r.value - HDR);
      && b !in Live(heap.blocks) && HDR + need <= g.span && HDR <= b.span
      && Moved(old(heap.mem[..]), rmem, heap.mem[..], r.value, Min(b.span - HDR, need))
      && Theirs(heap.blocks, now, theirs', {g})
  {
    hide Heap.Valid, Theirs, Kept, Moved, AllKept, Served;
    ghost var m, b := heap.mem[..], BlockAt(heap.blocks, rmem - HDR);
    var size;
    ghost var g;
    r, size, g := Allocate(heap, rmem, need, owned, theirs);
    now, theirs' := owned, theirs;
    if r.Some? {
      ghost var m1 := heap.mem[..];
      now, theirs' := OtherThreads(heap, now, theirs', {b, g});
      ghost var m2 := heap.mem[..];
      Copy(heap, rmem, r.value, if size < need then size else need, now, theirs', b, g);
      ghost var m3 := heap.mem[..];
      now, theirs' := OtherThreads(heap, now, theirs', {b, g});
      ghost var m4 := heap.mem[..];
      FreeOld(heap, rmem, now, theirs', b, g);
      BytesArrive(m, m1, m2, m3, m4, heap.mem[..], b, g, Min(b.span - HDR, need));
    }
  }

  /** The first section: the size of the old block is read and a new block allocated. */
  method Allocate(heap: Heap, rmem: nat, need: nat, owned: seq<nat>, ghost theirs: seq<Block>)
      returns (r: Option<nat>, size: nat, ghost g: Block)
    requires heap.Valid() && heap.IsLive(rmem) && 0 < need && need % ALIGN_SIZE == 0 && heap.Returns(need)
    requires Theirs(heap.blocks, owned, theirs, {BlockAt(heap.blocks, rmem - HDR)})
    modifies heap, heap.mem
    ensures heap.Valid()
    ensures r.Some? <==> Served(old(heap.blocks), Need(need), heap.HeapEnd())
    ensures r.None? ==> heap.blocks == old(heap.blocks) && heap.mem[..] == old(heap.mem[..])
    ensures var b := BlockAt(old(heap.blocks), rmem - HDR);
            && b.start == rmem - HDR && HDR + size == b.span && b.End() <= |heap.mem[..]|
            && (r.Some? ==>
                  && Theirs(heap.blocks, owned, theirs, {b, g}) && b != g && g.End() <= |heap.mem[..]|
                  && r.value == g.start + HDR && HDR + need <= g.span && AllKept(old(heap.mem[..]), heap.mem[..], {b}))
  {
    hide Linked, Tiles, NoFreeNeighbours, OnBoundaries, LowestFree, UsedSpan, FreePayload, LiveKept, AllocAt, FirstFit,
      Served, Kept;
    ghost var bs, m, b := heap.blocks, heap.mem[..], BlockAt(heap.blocks, rmem - HDR);
    heap.HeaderAt(IndexOf(bs, rmem - HDR));
    size := heap.mem[rmem - HDR + 4] - rmem;
    r := heap.Malloc(need);
    g := b;
    if r.Some? {
      ghost var i := FirstFit(bs, Need(need));
      FirstFits(bs, need);
      AllocAtChain(bs, i, Need(need), HDR, CUT, 0, heap.HeapEnd(), LEAST);
      g := Granted(bs[i], Need(need), HDR, CUT);
      TheirsMore(bs, heap.blocks, owned, theirs, {b}, g);
      assert {b} + {g} == {b, g};
      PayloadInside(heap.blocks, g, heap.HeapEnd());
      KeptFrom(m, heap.mem[..], bs, {b}, {});
    }
  }

  lemma FirstFits(bs: seq<Block>, need: nat)
    requires FirstFit(bs, Need(need)) < |bs|
    ensures Fits(bs[FirstFit(bs, Need(need))], Need(need)) && need <= Need(need)
  {
  }

  /** The copy, which runs without the lock. */
  method Copy(heap: Heap, rmem: nat, nmem: nat, n: nat, owned: seq<nat>, ghost theirs: seq<Block>, ghost b: Block,
              ghost g: Block)
    requires heap.Valid() && Theirs(heap.blocks, owned, theirs, {b, g}) && b != g
    requires rmem == b.start + HDR && nmem == g.start + HDR && HDR + n <= b.span && HDR + n <= g.span
    modifies heap.mem
    ensures heap.Valid() && |heap.mem[..]| == |old(heap.mem[..])| && heap.blocks == old(heap.blocks)
    ensures Moved(old(heap.mem[..]), rmem, heap.mem[..], nmem, n)
  {
    hide Linked, Tiles, NoFreeNeighbours, OnBoundaries, LowestFree, UsedSpan, FreePayload, LiveKept, Kept, Moved;
    ghost var bs, m := heap.blocks, heap.mem[..];
    LiveApart(bs, b, g, heap.HeapEnd());
    LiveApart(bs, g, b, heap.HeapEnd());
    MemCopy(heap.mem, nmem, rmem, n);
    PayloadWrite(m, heap.mem[..], bs, g, heap.HeapEnd());
    EndUntouched(m, heap.mem[..], g, heap.HeapEnd());
  }

  /** The last section: the old block is freed. */
  method FreeOld(heap: Heap, rmem: nat, owned: seq<nat>, ghost theirs: seq<Block>, ghost b: Block, ghost g: Block)
    requires heap.Valid() && Theirs(heap.blocks, owned, theirs, {b, g}) && b != g && rmem == b.start + HDR
    modifies heap, heap.mem
    ensures heap.Valid() && b !in Live(heap.blocks) && Theirs(heap.blocks, owned, theirs, {g})
    ensures LiveAt(heap.blocks, g.start) && BlockAt(heap.blocks, g.start) == g
    ensures AllKept(old(heap.mem[..]), heap.mem[..], {g})
  {
    hide Linked, Tiles, NoFreeNeighbours, OnBoundaries, LowestFree, UsedSpan, FreePayload, LiveKept, Kept, FreeAt;
    ghost var bs, m := heap.blocks, heap.mem[..];
    BlockAtIs(bs, b, heap.HeapEnd());
    PayloadInside(bs, b, heap.HeapEnd());
    FreeAtChain(bs, IndexOf(bs, b.start), HDR, 0, heap.HeapEnd(), LEAST);
    heap.Free(Some(rmem));
    BlockAtIs(heap.blocks, g, heap.HeapEnd());
    KeptFrom(m, heap.mem[..], bs, {g}, {b});
  }

  /** What was in the old block at the call is in the new one at the end. */
  lemma BytesArrive(m: seq<int>, m1: seq<int>, m2: seq<int>, m3: seq<int>, m4: seq<int>, m5: seq<int>, b: Block,
                    g: Block, n: nat)
    requires HDR + n <= b.span && HDR + n <= g.span && b.End() <= |m| && g.End() <= |m|
    requires AllKept(m, m1, {b}) && AllKept(m1, m2, {b, g}) && AllKept(m3, m4, {b, g}) && AllKept(m4, m5, {g})
    requires |m2| == |m3| && Moved(m2, b.start + HDR, m3, g.start + HDR, n)
    ensures Moved(m, b.start + HDR, m5, g.start + HDR, n)
  {
    assert Kept(m, m1, b) && Kept(m1, m2, b) && Kept(m3, m4, g) && Kept(m4, m5, g);
  }
}
