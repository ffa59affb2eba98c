/** The two lists of rt-thread/src/memheap.c, as values: the ring of all blocks in address order, and the
    free list, which has an order of its own. */
module MemHeapLists {
  import opened WaitList
  import opened CircularList
  import opened Tiling
  import opened TilingOps

  const HDR: nat := 24
  const MINIALLOC: nat := 12
  const LEAST: nat := 36

  function Starts(bs: seq<Block>): (s: seq<nat>)
    ensures |s| == |bs| && forall i :: 0 <= i < |bs| ==> s[i] == bs[i].start
  {
    seq(|bs|, i requires 0 <= i < |bs| => bs[i].start)
  }

  /** The `used` flags in memory are those of the chain; the tailer counts as used. */
  ghost predicate FlagsMatch(used: map<nat, bool>, bs: seq<Block>, tail: nat) {
    && (forall i :: 0 <= i < |bs| ==> bs[i].start in used && used[bs[i].start] == bs[i].used)
    && tail in used && used[tail]
  }

  ghost predicate FreeBlockAt(bs: seq<Block>, p: nat) {
    exists i :: 0 <= i < |bs| && bs[i].start == p && !bs[i].used
  }

  /** The free list holds exactly the unused blocks, each once. */
  ghost predicate ListsFree(bs: seq<Block>, free: seq<nat>) {
    Distinct(free) && forall p :: p in free <==> FreeBlockAt(bs, p)
  }

  /** The index of the block at `p`, or the length of the chain. */
  function IndexAt(bs: seq<Block>, p: nat): (i: nat)
    ensures i <= |bs| && (i < |bs| ==> bs[i].start == p)
  {
    if bs == [] || bs[0].start == p then 0 else IndexAt(bs[1..], p) + 1
  }

  lemma {:induction false} IndexAtIs(bs: seq<Block>, i: nat, lo: nat, hi: nat)
    requires Tiles(bs, lo, hi, LEAST) && i < |bs|
    ensures IndexAt(bs, bs[i].start) == i
  {
    if i > 0 {
      Apart(bs, 0, i, lo, hi, LEAST);
      TilesAt(bs, 0, lo, hi, LEAST);
      IndexAtIs(bs[1..], i - 1, bs[0].End(), hi);
    }
  }

  lemma StartsUnique(bs: seq<Block>, i: nat, j: nat, lo: nat, hi: nat)
    requires Tiles(bs, lo, hi, LEAST) && i < |bs| && j < |bs| && bs[i].start == bs[j].start
    ensures i == j
  {
    IndexAtIs(bs, i, lo, hi);
    IndexAtIs(bs, j, lo, hi);
  }

  predicate Fits(bs: seq<Block>, p: nat, need: nat) {
    var i := IndexAt(bs, p);
    i < |bs| && bs[i].span >= HDR + need
  }

  /** The first block of the free list, in list order, that has room for `need` bytes. */
  function FirstFit(bs: seq<Block>, free: seq<nat>, need: nat): (k: nat)
    ensures k <= |free| && (k < |free| ==> Fits(bs, free[k], need))
    ensures forall j :: 0 <= j < k ==> !Fits(bs, free[j], need)
  {
    if free == [] || Fits(bs, free[0], need) then 0 else
      var k := FirstFit(bs, free[1..], need);
      assert forall j :: 0 < j < k + 1 ==> free[j] == free[1..][j - 1];
      k + 1
  }

  lemma FitIs(bs: seq<Block>, free: seq<nat>, need: nat, k: nat)
    requires k <= |free| && (k < |free| ==> Fits(bs, free[k], need))
    requires forall j :: 0 <= j < k ==> !Fits(bs, free[j], need)
    ensures FirstFit(bs, free, need) == k
  {
  }

  // ----- The ring and the chain

  lemma RingLink(next: map<nat, nat>, prev: map<nat, nat>, h: nat, s: seq<nat>, k: nat)
    requires Ring(next, prev, h, s) && k <= |s|
    ensures Link(next, prev, At(h, s, k), At(h, s, k + 1))
  {
  }

  lemma HeadNotListed(next: map<nat, nat>, prev: map<nat, nat>, h: nat, s: seq<nat>, k: nat)
    requires Ring(next, prev, h, s) && k <= |s| && At(h, s, k + 1) == h
    ensures k == |s|
  {
    assert forall j :: 0 <= j < |s| ==> s[j] != h;
  }

  /** What the links at block `i` say. */
  lemma RingAt(next: map<nat, nat>, prev: map<nat, nat>, bs: seq<Block>, tail: nat, i: nat)
    requires Ring(next, prev, tail, Starts(bs)) && i < |bs|
    ensures bs[i].start in next && next[bs[i].start] == StartAt(bs, i + 1, tail)
    ensures StartAt(bs, i + 1, tail) in prev && prev[StartAt(bs, i + 1, tail)] == bs[i].start
    ensures bs[i].start in prev && prev[bs[i].start] == (if i == 0 then tail else bs[i - 1].start)
    ensures (if i == 0 then tail else bs[i - 1].start) in next
  {
    var s := Starts(bs);
    assert Link(next, prev, At(tail, s, i), At(tail, s, i + 1));
    assert Link(next, prev, At(tail, s, i + 1), At(tail, s, i + 2));
  }

  /** A new block cut off at `q` behind block `i` is inserted in the ring. */
  lemma RingCut(next: map<nat, nat>, prev: map<nat, nat>, bs: seq<Block>, tail: nat, i: nat, b: Block, rest: Block)
    requires Ring(next, prev, tail, Starts(bs)) && i < |bs| && b.start == bs[i].start
    requires rest.start != tail && rest.start !in Starts(bs)
    ensures var x, y, q := bs[i].start, StartAt(bs, i + 1, tail), rest.start;
            Ring(next[q := y][x := q], prev[y := q][q := x], tail, Starts(bs[..i] + [b, rest] + bs[i + 1..]))
  {
    var s := Starts(bs);
    CircularList.InsertAfter(next, prev, tail, s, i + 1, rest.start);
    assert Starts(bs[..i] + [b, rest] + bs[i + 1..]) == InsertAt(s, i + 1, rest.start);
  }

  /** Block `i + 1`, merged into block `i`, is removed from the ring. */
  lemma RingJoin(next: map<nat, nat>, prev: map<nat, nat>, bs: seq<Block>, tail: nat, i: nat, b: Block)
    requires Ring(next, prev, tail, Starts(bs)) && i + 1 < |bs| && b.start == bs[i].start
    ensures var x, y := bs[i].start, StartAt(bs, i + 2, tail);
            Ring(next[x := y], prev[y := x], tail, Starts(bs[..i] + [b] + bs[i + 2..]))
  {
    var s := Starts(bs);
    CircularList.Remove(next, prev, tail, s, i + 1);
    assert Starts(bs[..i] + [b] + bs[i + 2..]) == Drop(s, i + 1);
  }

  // ----- The free list and the chain

  /** The free blocks after a stretch `l..r` was replaced by `mid`. */
  lemma FreeSplice(bs: seq<Block>, l: nat, r: nat, mid: seq<Block>, lo: nat, hi: nat, p: nat)
    requires Tiles(bs, lo, hi, LEAST) && l <= r <= |bs|
    ensures FreeBlockAt(bs[..l] + mid + bs[r..], p)
            <==> FreeBlockAt(mid, p) || (FreeBlockAt(bs, p) && !FreeBlockAt(bs[l..r], p))
  {
    if FreeBlockAt(bs[..l] + mid + bs[r..], p) { SpliceFrom(bs, l, r, mid, lo, hi, p); }
    SpliceInto(bs, l, r, mid, p);
  }

  lemma SpliceFrom(bs: seq<Block>, l: nat, r: nat, mid: seq<Block>, lo: nat, hi: nat, p: nat)
    requires Tiles(bs, lo, hi, LEAST) && l <= r <= |bs| && FreeBlockAt(bs[..l] + mid + bs[r..], p)
    ensures FreeBlockAt(mid, p) || (FreeBlockAt(bs, p) && !FreeBlockAt(bs[l..r], p))
  {
    hide Tiles;
    var cs := bs[..l] + mid + bs[r..];
    var i :| 0 <= i < |cs| && cs[i].start == p && !cs[i].used;
    if l <= i < l + |mid| {
      assert mid[i - l] == cs[i];
    } else {
      var k := if i < l then i else i - l - |mid| + r;
      assert bs[k] == cs[i];
      if FreeBlockAt(bs[l..r], p) {
        var j :| 0 <= j < r - l && bs[l..r][j].start == p;
        StartsUnique(bs, k, l + j, lo, hi);
      }
    }
  }

  lemma SpliceInto(bs: seq<Block>, l: nat, r: nat, mid: seq<Block>, p: nat)
    requires l <= r <= |bs|
    ensures FreeBlockAt(mid, p) || (FreeBlockAt(bs, p) && !FreeBlockAt(bs[l..r], p))
            ==> FreeBlockAt(bs[..l] + mid + bs[r..], p)
  {
    var cs := bs[..l] + mid + bs[r..];
    if FreeBlockAt(mid, p) {
      var j :| 0 <= j < |mid| && mid[j].start == p && !mid[j].used;
      assert cs[l + j] == mid[j];
    } else if FreeBlockAt(bs, p) && !FreeBlockAt(bs[l..r], p) {
      var i :| 0 <= i < |bs| && bs[i].start == p && !bs[i].used;
      assert cs[if i < l then i else i - r + l + |mid|] == bs[i];
    }
  }

  lemma FreeBlockOne(b: Block, p: nat)
    ensures FreeBlockAt([b], p) <==> !b.used && b.start == p
  {
    assert [b][0] == b;
  }

  lemma FreeBlockTwo(a: Block, b: Block, p: nat)
    ensures FreeBlockAt([a, b], p) <==> (!a.used && a.start == p) || (!b.used && b.start == p)
  {
    assert [a, b][0] == a && [a, b][1] == b;
  }

  /** The free list after an allocation: the block leaves, its remainder comes to the front. */
  function FreeAfterAlloc(free: seq<nat>, b: Block, need: nat): seq<nat> {
    (if b.span >= HDR + need + LEAST then [b.start + HDR + need] else []) + Without(free, b.start)
  }

  lemma AllocListsFree(bs: seq<Block>, free: seq<nat>, i: nat, need: nat, lo: nat, hi: nat)
    requires Tiles(bs, lo, hi, LEAST) && ListsFree(bs, free) && i < |bs| && !bs[i].used
    requires MINIALLOC <= need && HDR + need <= bs[i].span
    ensures ListsFree(AllocAt(bs, i, need, HDR, LEAST), FreeAfterAlloc(free, bs[i], need))
  {
    var b, rest, q := bs[i], Without(free, bs[i].start), bs[i].start + HDR + need;
    var split, g := b.span >= HDR + need + LEAST, Granted(b, need, HDR, LEAST);
    var mid := if split then [g, Rest(q, b.End())] else [g];
    WithoutDistinct(free, b.start);
    assert FreeBlockAt(bs, b.start);
    if split {
      InsideFree(bs, free, i, q, lo, hi);
      ConsDistinct(q, rest);
    }
    assert bs[i..i + 1] == [b];
    forall p ensures p in FreeAfterAlloc(free, b, need) <==> FreeBlockAt(AllocAt(bs, i, need, HDR, LEAST), p) {
      FreeSplice(bs, i, i + 1, mid, lo, hi, p);
      FreeBlockOne(b, p);
      FreeBlockOne(g, p);
      if split { FreeBlockTwo(g, mid[1], p); }
    }
  }

  /** An address strictly inside a block is no block's address. */
  lemma InsideFree(bs: seq<Block>, free: seq<nat>, i: nat, q: nat, lo: nat, hi: nat)
    requires Tiles(bs, lo, hi, LEAST) && ListsFree(bs, free) && i < |bs| && bs[i].start < q < bs[i].End()
    ensures q !in free && q !in Starts(bs)
  {
    forall k | 0 <= k < |bs| ensures bs[k].start != q {
      if k < i { Apart(bs, k, i, lo, hi, LEAST); }
      if i < k { Apart(bs, i, k, lo, hi, LEAST); }
      TilesAt(bs, k, lo, hi, LEAST);
    }
  }

  /** The free list after freeing block `i`: a right neighbour merged in leaves; unless a left neighbour
      takes the block in, the block comes to the front. */
  function FreeAfterFree(free: seq<nat>, bs: seq<Block>, i: nat): seq<nat>
    requires i < |bs|
  {
    (if MergeFrom(bs, i) < i then [] else [bs[i].start])
    + if i < MergeTo(bs, i) then Without(free, bs[i + 1].start) else free
  }

  lemma FreeListsFree(bs: seq<Block>, free: seq<nat>, i: nat, lo: nat, hi: nat)
    requires Tiles(bs, lo, hi, LEAST) && ListsFree(bs, free) && i < |bs| && bs[i].used
    ensures ListsFree(FreeAt(bs, i), FreeAfterFree(free, bs, i))
  {
    hide Tiles, FreeBlockAt, FreeAt, Without, Distinct;
    var r := MergeTo(bs, i);
    var rest := if i < r then Without(free, bs[i + 1].start) else free;
    if i < r { WithoutDistinct(free, bs[i + 1].start); }
    FreeNeighboursListed(bs, free, i, lo, hi);
    ConsDistinct(bs[i].start, rest);
    assert [] + rest == rest;
    forall p ensures p in FreeAfterFree(free, bs, i) <==> FreeBlockAt(FreeAt(bs, i), p) {
      FreeFreeAt(bs, i, lo, hi, p);
    }
  }

  /** The free blocks after a free: the merged block, and those from before but for the right neighbour it took in. */
  lemma FreeFreeAt(bs: seq<Block>, i: nat, lo: nat, hi: nat, p: nat)
    requires Tiles(bs, lo, hi, LEAST) && i < |bs| && bs[i].used
    ensures FreeBlockAt(FreeAt(bs, i), p)
            <==> (MergeFrom(bs, i) == i && p == bs[i].start)
                 || (FreeBlockAt(bs, p) && !(i < MergeTo(bs, i) && p == bs[i + 1].start))
  {
    hide Tiles;
    var l, r := MergeFrom(bs, i), MergeTo(bs, i);
    var m := Block(bs[l].start, Length(bs[l].start, bs[r].End()), false);
    FreeSplice(bs, l, r + 1, [m], lo, hi, p);
    FreeBlockOne(m, p);
    StretchFree(bs, i, p);
    if l < i { StretchApart(bs, l, r, lo, hi); }
  }

  lemma FreeNeighboursListed(bs: seq<Block>, free: seq<nat>, i: nat, lo: nat, hi: nat)
    requires Tiles(bs, lo, hi, LEAST) && ListsFree(bs, free) && i < |bs| && bs[i].used
    ensures bs[i].start !in free && (i < MergeTo(bs, i) ==> bs[i + 1].start in free)
    ensures forall x :: bs[i].start !in Without(free, x)
  {
    forall k | 0 <= k < |bs| && bs[k].start == bs[i].start ensures k == i { StartsUnique(bs, k, i, lo, hi); }
    if i < MergeTo(bs, i) { assert FreeBlockAt(bs, bs[i + 1].start); }
  }

  /** The free blocks among those that freeing block `i` merges. */
  lemma StretchFree(bs: seq<Block>, i: nat, p: nat)
    requires i < |bs| && bs[i].used
    ensures var l, r := MergeFrom(bs, i), MergeTo(bs, i);
            FreeBlockAt(bs[l..r + 1], p) <==> (l < i && bs[l].start == p) || (i < r && bs[r].start == p)
  {
    var l, r := MergeFrom(bs, i), MergeTo(bs, i);
    var s := bs[l..r + 1];
    assert forall k :: 0 <= k < |s| ==> s[k] == bs[l + k];
    if l < i { assert s[0] == bs[l]; }
    if i < r { assert s[r - l] == bs[r]; }
  }

  lemma StretchApart(bs: seq<Block>, l: nat, r: nat, lo: nat, hi: nat)
    requires Tiles(bs, lo, hi, LEAST) && l <= r < |bs|
    ensures l < r ==> bs[l].start != bs[r].start
  {
    if l < r { Apart(bs, l, r, lo, hi, LEAST); TilesAt(bs, l, lo, hi, LEAST); }
  }

  /** The free list after the boundary behind the used block `i` moved to `q`. */
  function FreeAfterResize(free: seq<nat>, bs: seq<Block>, i: nat, q: nat): seq<nat>
    requires i < |bs|
  {
    [q] + if i < MergeTo(bs, i) then Without(free, bs[i + 1].start) else free
  }

  lemma ResizeListsFree(bs: seq<Block>, free: seq<nat>, i: nat, need: nat, lo: nat, hi: nat)
    requires Tiles(bs, lo, hi, LEAST) && ListsFree(bs, free) && i < |bs| && bs[i].used
    requires bs[i].start + HDR + need < bs[MergeTo(bs, i)].End() && 0 < need
    ensures ListsFree(ResizeAt(bs, i, need, HDR), FreeAfterResize(free, bs, i, bs[i].start + HDR + need))
  {
    hide Tiles, FreeBlockAt, ResizeAt, Without, Distinct;
    var r, q := MergeTo(bs, i), bs[i].start + HDR + need;
    var rest := if i < r then Without(free, bs[i + 1].start) else free;
    if i < r { WithoutDistinct(free, bs[i + 1].start); }
    ResizedNotListed(bs, free, i, need, lo, hi);
    ConsDistinct(q, rest);
    forall p ensures p in FreeAfterResize(free, bs, i, q) <==> FreeBlockAt(ResizeAt(bs, i, need, HDR), p) {
      ResizeListed(bs, free, i, need, lo, hi, p);
    }
  }

  lemma ResizeListed(bs: seq<Block>, free: seq<nat>, i: nat, need: nat, lo: nat, hi: nat, p: nat)
    requires Tiles(bs, lo, hi, LEAST) && ListsFree(bs, free) && i < |bs| && bs[i].used
    requires bs[i].start + HDR + need < bs[MergeTo(bs, i)].End()
    ensures p in FreeAfterResize(free, bs, i, bs[i].start + HDR + need) <==> FreeBlockAt(ResizeAt(bs, i, need, HDR), p)
  {
    hide Tiles, FreeBlockAt, ResizeAt, Without, Distinct;
    ResizeFreeAt(bs, i, need, lo, hi, p);
    if i < MergeTo(bs, i) { WithoutDistinct(free, bs[i + 1].start); }
  }

  /** The free blocks after a resize: the remainder, and those from before but for the neighbour it took in. */
  lemma ResizeFreeAt(bs: seq<Block>, i: nat, need: nat, lo: nat, hi: nat, p: nat)
    requires Tiles(bs, lo, hi, LEAST) && i < |bs| && bs[i].used && bs[i].start + HDR + need < bs[MergeTo(bs, i)].End()
    ensures FreeBlockAt(ResizeAt(bs, i, need, HDR), p)
            <==> p == bs[i].start + HDR + need
                 || (FreeBlockAt(bs, p) && !(i < MergeTo(bs, i) && p == bs[i + 1].start))
  {
    hide Tiles, FreeBlockAt;
    var r := MergeTo(bs, i);
    var b := Block(bs[i].start, HDR + need, true);
    var rest := Rest(b.End(), bs[r].End());
    FreeSplice(bs, i, r + 1, [b, rest], lo, hi, p);
    FreeBlockTwo(b, rest, p);
    if i < r {
      assert bs[i..r + 1] == [bs[i], bs[r]];
      FreeBlockTwo(bs[i], bs[r], p);
    } else {
      assert bs[i..r + 1] == [bs[i]];
      FreeBlockOne(bs[i], p);
    }
  }

  lemma ResizedNotListed(bs: seq<Block>, free: seq<nat>, i: nat, need: nat, lo: nat, hi: nat)
    requires Tiles(bs, lo, hi, LEAST) && ListsFree(bs, free) && i < |bs| && bs[i].used
    requires bs[i].start + HDR + need < bs[MergeTo(bs, i)].End() && 0 < need
    ensures lo <= bs[i].start + HDR + need < hi && (i < MergeTo(bs, i) ==> bs[i + 1].start in free)
    ensures bs[i].start + HDR + need !in if i < MergeTo(bs, i) then Without(free, bs[i + 1].start) else free
  {
    var r, q := MergeTo(bs, i), bs[i].start + HDR + need;
    TilesAt(bs, i, lo, hi, LEAST);
    TilesAt(bs, r, lo, hi, LEAST);
    if i < r {
      assert FreeBlockAt(bs, bs[i + 1].start);
      WithoutDistinct(free, bs[i + 1].start);
    }
    forall k | 0 <= k < |bs| && bs[k].start == q ensures i < r && k == r {
      if k < i { Apart(bs, k, i, lo, hi, LEAST); TilesAt(bs, k, lo, hi, LEAST); }
      if r < k { Apart(bs, r, k, lo, hi, LEAST); }
    }
  }

  // ----- Chains and flags after a cut, a merge and a change of use

  lemma NotAStart(bs: seq<Block>, i: nat, q: nat, lo: nat, hi: nat)
    requires Tiles(bs, lo, hi, LEAST) && i < |bs| && bs[i].start < q < bs[i].End()
    ensures q !in Starts(bs) && q != hi
  {
    TilesAt(bs, i, lo, hi, LEAST);
    forall k | 0 <= k < |bs| ensures bs[k].start != q {
      if k < i { Apart(bs, k, i, lo, hi, LEAST); TilesAt(bs, k, lo, hi, LEAST); }
      if i < k { Apart(bs, i, k, lo, hi, LEAST); }
    }
  }

  lemma CutTiles(bs: seq<Block>, i: nat, b: Block, rest: Block, lo: nat, hi: nat)
    requires Tiles(bs, lo, hi, LEAST) && i < |bs| && b.start == bs[i].start && LEAST <= b.span && LEAST <= rest.span
    requires rest.start == b.End() && rest.End() == bs[i].End()
    ensures Tiles(bs[..i] + [b, rest] + bs[i + 1..], lo, hi, LEAST)
  {
    TilesAt(bs, i, lo, hi, LEAST);
    var mid := [b, rest];
    assert mid[1..] == [rest] && [rest][1..] == [];
    assert Tiles([rest], rest.start, rest.End(), LEAST);
    Splice(bs, i, i + 1, mid, lo, hi, LEAST);
  }

  lemma JoinTiles(bs: seq<Block>, l: nat, b: Block, lo: nat, hi: nat)
    requires Tiles(bs, lo, hi, LEAST) && l + 1 < |bs| && b.start == bs[l].start && b.End() == bs[l + 1].End()
    ensures Tiles(bs[..l] + [b] + bs[l + 2..], lo, hi, LEAST)
  {
    TilesAt(bs, l, lo, hi, LEAST);
    TilesAt(bs, l + 1, lo, hi, LEAST);
    assert [b][1..] == [];
    Splice(bs, l, l + 2, [b], lo, hi, LEAST);
  }

  lemma FlagTiles(bs: seq<Block>, i: nat, flag: bool, lo: nat, hi: nat)
    requires Tiles(bs, lo, hi, LEAST) && i < |bs|
    ensures Tiles(bs[i := bs[i].(used := flag)], lo, hi, LEAST)
  {
    TilesAt(bs, i, lo, hi, LEAST);
    var b := bs[i].(used := flag);
    assert [b][1..] == [];
    Splice(bs, i, i + 1, [b], lo, hi, LEAST);
    assert bs[i := b] == bs[..i] + [b] + bs[i + 1..];
  }

  lemma CutFlags(used: map<nat, bool>, bs: seq<Block>, i: nat, b: Block, rest: Block, tail: nat)
    requires FlagsMatch(used, bs, tail) && i < |bs| && b.start == bs[i].start && b.used == bs[i].used && !rest.used
    requires rest.start !in Starts(bs) && rest.start != tail
    ensures FlagsMatch(used[rest.start := false], bs[..i] + [b, rest] + bs[i + 1..], tail)
  {
    var cs := bs[..i] + [b, rest] + bs[i + 1..];
    forall k | 0 <= k < |cs| && k != i + 1
      ensures cs[k].start != rest.start && cs[k].start in used && used[cs[k].start] == cs[k].used
    {
      var j := if k <= i then k else k - 1;
      assert Starts(bs)[j] in Starts(bs);
      assert k != i ==> cs[k] == bs[j];
    }
  }

  lemma JoinFlags(used: map<nat, bool>, bs: seq<Block>, l: nat, b: Block, tail: nat)
    requires FlagsMatch(used, bs, tail) && l + 1 < |bs| && b.start == bs[l].start && b.used == bs[l].used
    ensures FlagsMatch(used, bs[..l] + [b] + bs[l + 2..], tail)
  {
    var cs := bs[..l] + [b] + bs[l + 2..];
    assert forall k :: 0 <= k < |cs| && k != l ==> cs[k] == bs[if k < l then k else k + 1];
  }

  lemma FlagFlags(used: map<nat, bool>, bs: seq<Block>, i: nat, flag: bool, lo: nat, tail: nat)
    requires FlagsMatch(used, bs, tail) && Tiles(bs, lo, tail, LEAST) && i < |bs|
    ensures FlagsMatch(used[bs[i].start := flag], bs[i := bs[i].(used := flag)], tail)
  {
    TilesAt(bs, i, lo, tail, LEAST);
    forall k | 0 <= k < |bs| && k != i ensures bs[k].start != bs[i].start {
      if bs[k].start == bs[i].start { StartsUnique(bs, k, i, lo, tail); }
    }
  }

  // ----- What was freed last is found first

  /** The merged block, unless it went to a left neighbour, is the first the next search looks at. */
  lemma FreedIsFirst(bs: seq<Block>, free: seq<nat>, i: nat, need: nat)
    requires i < |bs| && MergeFrom(bs, i) == i
    requires bs[i].start + HDR + need <= bs[MergeTo(bs, i)].End() && Fits(FreeAt(bs, i), bs[i].start, need)
    ensures var fs := FreeAfterFree(free, bs, i);
            FirstFit(FreeAt(bs, i), fs, need) == 0 && |fs| > 0 && fs[0] == bs[i].start
  {
  }

  /** So is the rest of a block that was split or cut. */
  lemma RestIsFirst(free: seq<nat>, bs: seq<Block>, i: nat, need: nat, q: nat)
    requires i < |bs|
    ensures FreeAfterResize(free, bs, i, q) != [] && FreeAfterResize(free, bs, i, q)[0] == q
    ensures bs[i].span >= HDR + need + 36 ==>
      FreeAfterAlloc(free, bs[i], need) != [] && FreeAfterAlloc(free, bs[i], need)[0] == bs[i].start + HDR + need
  {
  }
}
