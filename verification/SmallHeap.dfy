/** The small-memory heap of rt-thread/src/mem.c. Offsets are relative to heap_ptr; a pointer handed to a
    caller is the offset of a payload. */
module SmallHeap {
  import opened Machine
  import opened Tiling
  import opened TilingOps
  import opened HeapCells
  import opened Memory

  const MIN_SIZE: nat := 12
  const MIN_SIZE_ALIGNED: nat := 16
  const LEAST: nat := 24      // the smallest block: a header and eight bytes, left by a realloc
  const CUT: nat := 32        // the smallest remainder worth splitting off: a header and MIN_SIZE_ALIGNED

  /** What rt_malloc looks for when asked for `size` bytes. */
  function Need(size: nat): nat {
    if Align(size) < MIN_SIZE_ALIGNED then MIN_SIZE_ALIGNED else Align(size)
  }

  /** It is the least multiple of 8 from `size` and from 16 on. */
  lemma NeedLeast(size: nat, n: nat)
    requires size <= n && 16 <= n && n % 8 == 0
    ensures size <= Need(size) <= n && 16 <= Need(size) && Need(size) % 8 == 0
  {
  }

  /** A block handed out is as large as was needed, or less than 32 bytes larger. */
  lemma GrantedTight(b: Block, need: nat)
    requires HDR + need <= b.span
    ensures var g := Granted(b, need, HDR, CUT);
            g.start == b.start && g.used && HDR + need <= g.span < HDR + need + 32
            && (b.span >= HDR + need + 32 ==> g.span == HDR + need) && HDR == 16
  {
  }

  ghost predicate OnBoundaries(bs: seq<Block>) {
    forall b :: b in bs ==> b.start % ALIGN_SIZE == 0
  }

  lemma SpliceBoundaries(bs: seq<Block>, l: nat, r: nat, mid: seq<Block>)
    requires OnBoundaries(bs) && OnBoundaries(mid) && l <= r <= |bs|
    ensures OnBoundaries(bs[..l] + mid + bs[r..])
  {
  }

  // ----- The lowest free block after each change of the chain

  lemma MarkLowest(bs: seq<Block>, i: nat, lo: nat, hi: nat)
    requires Tiles(bs, lo, hi, LEAST) && i < |bs| && bs[i].used
    ensures LowestFree(bs[i := bs[i].(used := false)], hi) == Min(LowestFree(bs, hi), bs[i].start)
  {
    var k, cs := LowestIndex(bs), bs[i := bs[i].(used := false)];
    LowestFreeAt(bs, k, hi);
    TilesAt(bs, i, lo, hi, LEAST);
    if k < i {
      Apart(bs, k, i, lo, hi, LEAST);
      LowestFreeAt(cs, k, hi);
    } else {
      if k < |bs| { Apart(bs, i, k, lo, hi, LEAST); }
      LowestFreeAt(cs, i, hi);
    }
  }

  lemma SameLowest(bs: seq<Block>, cs: seq<Block>, l: nat, hi: nat)
    requires l < |bs| && l < |cs| && bs[..l] == cs[..l]
    requires !bs[l].used && !cs[l].used && cs[l].start == bs[l].start
    ensures LowestFree(cs, hi) == LowestFree(bs, hi)
  {
    var k := LowestIndex(bs);
    assert forall j :: 0 <= j < l ==> cs[j] == cs[..l][j] == bs[j];
    LowestFreeAt(bs, k, hi);
    LowestFreeAt(cs, k, hi);
  }

  /** Splitting a free remainder off the used block `i`. */
  lemma CutLowest(bs: seq<Block>, i: nat, b: Block, rest: Block, lo: nat, hi: nat)
    requires Tiles(bs, lo, hi, LEAST) && i < |bs| && bs[i].used && b.used && !rest.used
    requires bs[i].start <= rest.start < bs[i].End()
    ensures LowestFree(bs[..i] + [b, rest] + bs[i + 1..], hi) == Min(LowestFree(bs, hi), rest.start)
  {
    var k, cs := LowestIndex(bs), bs[..i] + [b, rest] + bs[i + 1..];
    LowestFreeAt(bs, k, hi);
    TilesAt(bs, i, lo, hi, LEAST);
    if k < i {
      Apart(bs, k, i, lo, hi, LEAST);
      assert forall j :: 0 <= j <= k ==> cs[j] == bs[j];
      LowestFreeAt(cs, k, hi);
    } else {
      if k < |bs| { Apart(bs, i, k, lo, hi, LEAST); }
      assert forall j :: 0 <= j < i ==> cs[j] == bs[j];
      LowestFreeAt(cs, i + 1, hi);
    }
  }

  lemma AllocLowest(bs: seq<Block>, i: nat, need: nat, hi: nat)
    requires i < |bs| && HDR + need <= bs[i].span && LowestIndex(bs) < i
    ensures LowestFree(AllocAt(bs, i, need, HDR, CUT), hi) == LowestFree(bs, hi)
  {
    var k, cs := LowestIndex(bs), AllocAt(bs, i, need, HDR, CUT);
    assert forall j :: 0 <= j <= k ==> cs[j] == bs[j];
    LowestFreeAt(bs, k, hi);
    LowestFreeAt(cs, k, hi);
  }

  /** A free block starts at lfree just if it is the lowest. */
  lemma LowestAtMost(bs: seq<Block>, i: nat, lo: nat, hi: nat)
    requires Tiles(bs, lo, hi, LEAST) && i < |bs| && !bs[i].used
    ensures LowestFree(bs, hi) <= bs[i].start && LowestIndex(bs) <= i
    ensures LowestFree(bs, hi) == bs[i].start <==> LowestIndex(bs) == i
  {
    var k := LowestIndex(bs);
    LowestFreeAt(bs, k, hi);
    if k < i { Apart(bs, k, i, lo, hi, LEAST); TilesAt(bs, k, lo, hi, LEAST); }
  }

  /** Block `l` takes in block `l + 1`: `x->next = y->next; y->next->prev = x`. */
  function JoinNext(m: seq<int>, x: nat, e: nat): seq<int>
    requires x + 4 < |m| && e + 8 < |m|
  {
    m[x + 4 := e][e + 8 := x]
  }

  function Joined(bs: seq<Block>, l: nat): seq<Block>
    requires l + 1 < |bs| && bs[l].start <= bs[l + 1].End()
  {
    bs[..l] + [Rest(bs[l].start, bs[l + 1].End())] + bs[l + 2..]
  }

  lemma JoinHeader(m: seq<int>, x: nat, e: nat, next: int, prev: nat)
    requires Header(m, x, false, next, prev) && x + HDR <= e && e + HDR <= |m|
    ensures Linked(JoinNext(m, x, e), [Rest(x, e)], prev) && WritesOnly(m, JoinNext(m, x, e), x, e)
  {
    assert Header(JoinNext(m, x, e), x, false, e, prev);
  }

  lemma JoinTiles(bs: seq<Block>, l: nat, hi: nat)
    requires Tiles(bs, 0, hi, LEAST) && l + 1 < |bs|
    ensures bs[l].start + LEAST <= bs[l + 1].End() == StartAt(bs, l + 2, hi) <= hi
    ensures Tiles(Joined(bs, l), 0, hi, LEAST)
  {
    TilesAt(bs, l, 0, hi, LEAST);
    TilesAt(bs, l + 1, 0, hi, LEAST);
    var mid := [Rest(bs[l].start, bs[l + 1].End())];
    assert mid[1..] == [];
    Splice(bs, l, l + 2, mid, 0, hi, LEAST);
  }

  lemma JoinLinks(m: seq<int>, bs: seq<Block>, l: nat, hi: nat)
    requires Tiles(bs, 0, hi, LEAST) && Linked(m, bs, 0) && l + 1 < |bs| && !bs[l].used && hi + HDR <= |m|
    ensures bs[l].start + LEAST <= bs[l + 1].End() == StartAt(bs, l + 2, hi) <= hi
    ensures Linked(JoinNext(m, bs[l].start, bs[l + 1].End()), Joined(bs, l), 0)
    ensures WritesOnly(m, JoinNext(m, bs[l].start, bs[l + 1].End()), bs[l].start, StartAt(bs, l + 2, hi))
  {
    JoinTiles(bs, l, hi);
    var x, e := bs[l].start, bs[l + 1].End();
    JoinHeader(m, x, e, bs[l].End(), PrevOf(bs, l, 0));
    LinkedSplice(m, JoinNext(m, x, e), bs, l, l + 2, [Rest(x, e)], hi, LEAST);
  }

  /** The memory after a remainder at `q` was cut off the block at `p`; `hi` is heap_end. */
  function CutCells(m: seq<int>, p: nat, q: nat, hi: nat): seq<int>
    requires hi + HDR <= |m| && p + HDR <= q <= hi && q + HDR <= m[p + 4] <= hi
  {
    var e := m[p + 4];
    var m1 := m[q := MAGIC][q + 2 := 0][q + 4 := e][q + 8 := p][p + 4 := q];
    if e != hi then m1[e + 8 := q] else m1
  }

  lemma CutHeaders(m: seq<int>, p: nat, q: nat, hi: nat, prev: nat)
    requires hi + HDR <= |m| && p + HDR <= q <= hi && q + HDR <= m[p + 4] <= hi && Header(m, p, true, m[p + 4], prev)
    requires m[p + 4] == hi || m[p + 4] + HDR <= hi
    ensures var m' := CutCells(m, p, q, hi);
            && Linked(m', [Block(p, q - p, true), Rest(q, m[p + 4])], prev)
            && WritesOnly(m, m', p, m[p + 4])
            && (m[p + 4] != hi ==> m'[m[p + 4] + 8] == q)
            && m'[hi + 2] == m[hi + 2] && m'[hi + 4] == m[hi + 4]
            && Kept(m, m', Block(p, q - p, true))
  {
    var m' := CutCells(m, p, q, hi);
    assert Header(m', p, true, q, prev) && Header(m', q, false, m[p + 4], p);
  }

  lemma CutTiles(bs: seq<Block>, i: nat, q: nat, hi: nat)
    requires Tiles(bs, 0, hi, LEAST) && i < |bs| && bs[i].start + LEAST <= q && q + LEAST <= bs[i].End()
    ensures Tiles(bs[..i] + [Block(bs[i].start, q - bs[i].start, true), Rest(q, bs[i].End())] + bs[i + 1..], 0, hi,
      LEAST)
  {
    TilesAt(bs, i, 0, hi, LEAST);
    var mid := [Block(bs[i].start, q - bs[i].start, true), Rest(q, bs[i].End())];
    assert mid[1..] == [mid[1]] && mid[1..][1..] == [];
    assert Tiles(mid[1..], q, bs[i].End(), LEAST);
    Splice(bs, i, i + 1, mid, 0, hi, LEAST);
  }

  lemma MarkTiles(bs: seq<Block>, i: nat, used: bool, hi: nat)
    requires Tiles(bs, 0, hi, LEAST) && i < |bs|
    ensures Tiles(bs[i := bs[i].(used := used)], 0, hi, LEAST)
  {
    TilesAt(bs, i, 0, hi, LEAST);
    var mid := [bs[i].(used := used)];
    assert mid[1..] == [];
    Splice(bs, i, i + 1, mid, 0, hi, LEAST);
    assert bs[i := mid[0]] == bs[..i] + mid + bs[i + 1..];
  }

  lemma MarkLinks(m: seq<int>, m': seq<int>, bs: seq<Block>, i: nat, used: bool, hi: nat)
    requires Tiles(bs, 0, hi, LEAST) && Linked(m, bs, 0) && i < |bs| && hi + HDR <= |m| == |m'|
    requires WritesOnly(m, m', bs[i].start, StartAt(bs, i + 1, hi))
    requires Header(m', bs[i].start, used, bs[i].End(), PrevOf(bs, i, 0))
    requires i + 1 < |bs| ==> bs[i + 1].start + 8 < |m| && m'[bs[i + 1].start + 8] == bs[i].start
    ensures Linked(m', bs[i := bs[i].(used := used)], 0)
  {
    hide Tiles, WritesOnly, Header;
    var mid := [bs[i].(used := used)];
    LinkedSplice(m, m', bs, i, i + 1, mid, hi, LEAST);
    assert bs[i := mid[0]] == bs[..i] + mid + bs[i + 1..];
  }

  lemma GrantBoundaries(bs: seq<Block>, i: nat, need: nat)
    requires OnBoundaries(bs) && i < |bs| && HDR + need <= bs[i].span && need % ALIGN_SIZE == 0
    ensures OnBoundaries(AllocAt(bs, i, need, HDR, CUT))
  {
    var b, g := bs[i], Granted(bs[i], need, HDR, CUT);
    assert b in bs;
    BehindHeader(b.start, need);
    var mid := if b.span >= HDR + need + CUT then [g, Rest(b.start + HDR + need, b.End())] else [g];
    SpliceBoundaries(bs, i, i + 1, mid);
  }

  lemma BehindHeader(start: nat, need: nat)
    requires start % ALIGN_SIZE == 0 && need % ALIGN_SIZE == 0
    ensures (start + HDR + need) % ALIGN_SIZE == 0
  {
    var a, b := start / ALIGN_SIZE, need / ALIGN_SIZE;
    assert start + HDR + need == ALIGN_SIZE * (a + 2 + b);
  }

  lemma WritesCompose(m: seq<int>, m1: seq<int>, m2: seq<int>, from1: nat, from2: nat, to: nat)
    requires WritesOnly(m, m1, from1, to) && WritesOnly(m1, m2, from2, to) && from2 <= from1
    ensures WritesOnly(m, m2, from2, to)
  {
  }

  lemma WritesWiden(m: seq<int>, m': seq<int>, from: nat, to: nat, from2: nat, to2: nat)
    requires WritesOnly(m, m', from, to) && from2 <= from <= to && (to == to2 || to + 8 < to2)
    ensures WritesOnly(m, m', from2, to2)
  {
  }

  lemma MarkedAlloc(bs: seq<Block>, i: nat, need: nat)
    requires i < |bs| && HDR + need <= bs[i].span
    ensures AllocAt(bs[i := bs[i].(used := true)], i, need, HDR, CUT) == AllocAt(bs, i, need, HDR, CUT)
  {
    var cs := bs[i := bs[i].(used := true)];
    assert cs[..i] == bs[..i] && cs[i + 1..] == bs[i + 1..];
  }

  lemma FreeAtMarked(bs: seq<Block>, i: nat, used: bool)
    requires i < |bs|
    ensures FreeAt(bs[i := bs[i].(used := used)], i) == FreeAt(bs, i)
  {
    var cs := bs[i := bs[i].(used := used)];
    var l, r := MergeFrom(bs, i), MergeTo(bs, i);
    assert MergeFrom(cs, i) == l && MergeTo(cs, i) == r;
    assert cs[..l] == bs[..l] && cs[r + 1..] == bs[r + 1..];
  }

  lemma ResizeBoundaries(bs: seq<Block>, i: nat, need: nat)
    requires OnBoundaries(bs) && i < |bs| && need % ALIGN_SIZE == 0
    requires bs[i].start + HDR + need <= bs[MergeTo(bs, i)].End()
    ensures OnBoundaries(ResizeAt(bs, i, need, HDR))
  {
    var r, b := MergeTo(bs, i), Block(bs[i].start, HDR + need, true);
    assert bs[i] in bs;
    BehindHeader(b.start, need);
    SpliceBoundaries(bs, i, r + 1, [b, Rest(b.End(), bs[r].End())]);
  }

  lemma KeptAll(m: seq<int>, bs: seq<Block>, except: set<Block>)
    ensures LiveKept(m, m, bs, except) && forall b :: Kept(m, m, b)
  {
  }

  lemma KeptBelow(m: seq<int>, m1: seq<int>, m2: seq<int>, b: Block, from: nat, to: nat)
    requires Kept(m, m1, b) && WritesOnly(m1, m2, from, to) && b.End() <= from <= to && |m| == |m1|
    ensures Kept(m, m2, b)
  {
  }

  lemma FreeBoundaries(bs: seq<Block>, i: nat)
    requires OnBoundaries(bs) && i < |bs|
    ensures OnBoundaries(FreeAt(bs, i))
  {
    assert bs[MergeFrom(bs, i)] in bs;
  }

  lemma CutEnds(bs: seq<Block>, i: nat, b: Block, rest: Block, hi: nat)
    requires i < |bs| && b.used
    ensures var cs := bs[..i] + [b, rest] + bs[i + 1..];
            && cs[i + 1] == rest && MergeFrom(cs, i + 1) == i + 1
            && StartAt(cs, MergeTo(cs, i + 1) + 1, hi) == StartAt(bs, MergeTo(bs, i) + 1, hi)
  {
    var cs := bs[..i] + [b, rest] + bs[i + 1..];
    assert i + 1 < |bs| ==> cs[i + 2] == bs[i + 1];
    assert i + 2 < |bs| ==> cs[i + 3] == bs[i + 2];
  }

  /** Marking block `i` free and merging it leaves the other live payloads alone. */
  lemma FreeFrame(m: seq<int>, m1: seq<int>, m2: seq<int>, bs: seq<Block>, i: nat, hi: nat)
    requires Tiles(bs, 0, hi, LEAST) && i < |bs| && bs[i].used && hi + HDR <= |m| == |m1| == |m2|
    requires WritesOnly(m, m1, bs[i].start, StartAt(bs, i + 1, hi))
    requires WritesOnly(m1, m2, bs[MergeFrom(bs, i)].start, StartAt(bs, MergeTo(bs, i) + 1, hi))
    ensures LiveKept(m, m2, bs, {bs[i]})
  {
    hide Tiles, WritesOnly, LiveKept;
    var l, r := MergeFrom(bs, i), MergeTo(bs, i);
    var to := StartAt(bs, r + 1, hi);
    TilesAt(bs, l, 0, hi, LEAST);
    TilesAt(bs, i, 0, hi, LEAST);
    TilesAt(bs, r, 0, hi, LEAST);
    WritesWiden(m, m1, bs[i].start, StartAt(bs, i + 1, hi), bs[i].start, to);
    WritesCompose(m, m1, m2, bs[i].start, bs[l].start, to);
    StretchKeepsLive(m, m2, bs, l, r + 1, {bs[i]}, hi, LEAST);
  }

  /** Cutting block `i` at `q` and merging what is behind keeps the bytes before `q` and the other payloads. */
  lemma ShrinkFrame(m: seq<int>, m1: seq<int>, m2: seq<int>, bs: seq<Block>, i: nat, q: nat, hi: nat)
    requires Tiles(bs, 0, hi, LEAST) && i < |bs| && bs[i].used && hi + HDR <= |m| == |m1| == |m2|
    requires bs[i].start <= q <= bs[i].End() && Kept(m, m1, Block(bs[i].start, q - bs[i].start, true))
    requires WritesOnly(m, m1, bs[i].start, StartAt(bs, i + 1, hi))
    requires WritesOnly(m1, m2, q, StartAt(bs, MergeTo(bs, i) + 1, hi))
    ensures LiveKept(m, m2, bs, {bs[i]}) && Kept(m, m2, Block(bs[i].start, q - bs[i].start, true))
  {
    hide Tiles, WritesOnly, LiveKept, Kept;
    var p, r := bs[i].start, MergeTo(bs, i);
    var to := StartAt(bs, r + 1, hi);
    TilesAt(bs, i, 0, hi, LEAST);
    TilesAt(bs, r, 0, hi, LEAST);
    WritesWiden(m, m1, p, StartAt(bs, i + 1, hi), p, to);
    WritesWiden(m1, m2, q, to, p, to);
    WritesCompose(m, m1, m2, p, p, to);
    StretchKeepsLive(m, m2, bs, i, r + 1, {bs[i]}, hi, LEAST);
    KeptBelow(m, m1, m2, Block(p, q - p, true), q, to);
  }

  /** Cutting a remainder off and merging it with the free block behind is resizing. */
  lemma CutThenMerge(bs: seq<Block>, i: nat, need: nat)
    requires i < |bs| && bs[i].start + HDR + need <= bs[i].End() && bs[i].End() <= bs[MergeTo(bs, i)].End()
    ensures var q := bs[i].start + HDR + need;
            FreeAt(bs[..i] + [Block(bs[i].start, HDR + need, true), Rest(q, bs[i].End())] + bs[i + 1..], i + 1)
            == ResizeAt(bs, i, need, HDR)
  {
    var q, r := bs[i].start + HDR + need, MergeTo(bs, i);
    var kept, rest := Block(bs[i].start, HDR + need, true), Rest(q, bs[i].End());
    CutMerges(bs, i, kept, rest);
  }

  /** Where the merge behind a cut reaches, and what it leaves in place. */
  lemma CutMerges(bs: seq<Block>, i: nat, b: Block, rest: Block)
    requires i < |bs| && b.used
    ensures var cs, r := bs[..i] + [b, rest] + bs[i + 1..], MergeTo(bs, i);
            && MergeFrom(cs, i + 1) == i + 1 && MergeTo(cs, i + 1) == r + 1 && cs[i + 1] == rest
            && cs[r + 1] == (if r == i then rest else bs[r])
            && cs[..i + 1] == bs[..i] + [b] && cs[r + 2..] == bs[r + 1..]
  {
    var cs, r := bs[..i] + [b, rest] + bs[i + 1..], MergeTo(bs, i);
    assert i + 1 < |bs| ==> cs[i + 2] == bs[i + 1];
    assert cs[i] == b;
  }

  /** The live block that starts at `p`. */
  ghost function BlockAt(bs: seq<Block>, p: nat): Block
    requires LiveAt(bs, p)
  {
    bs[IndexOf(bs, p)]
  }

  /** The block with payload `p` became the one with payload `p'`, of at least `need` bytes; the bytes both
      have room for moved along, and every other live block is still there with its payload. */
  ghost predicate Reallocated(bs: seq<Block>, cs: seq<Block>, p: nat, p': nat, need: nat, m: seq<int>, m': seq<int>)
    requires HDR <= p && LiveAt(bs, p - HDR)
  {
    && HDR <= p' && LiveAt(cs, p' - HDR)
    && var b, b' := BlockAt(bs, p - HDR), BlockAt(cs, p' - HDR);
    && Live(cs) == Live(bs) - {b} + {b'} && HDR + need <= b'.span
    && HDR <= b.span && Moved(m, p, m', p', Min(b.span - HDR, need))
    && LiveKept(m, m', bs, {b})
  }

  lemma BlockAtIs(bs: seq<Block>, b: Block, hi: nat)
    requires Tiles(bs, 0, hi, LEAST) && b in Live(bs)
    ensures LiveAt(bs, b.start) && BlockAt(bs, b.start) == b
  {
    assert bs[IndexOf(bs, b.start)] in Live(bs);
    StartsDiffer(bs, 0, hi, LEAST);
  }

  /** Different live blocks lie apart. */
  lemma LiveApart(bs: seq<Block>, b: Block, c: Block, hi: nat)
    requires Tiles(bs, 0, hi, LEAST) && b in Live(bs) && c in Live(bs) && b != c
    ensures b.End() <= c.start || c.End() <= b.start
    ensures LEAST <= b.span && b.End() <= hi
  {
    var i :| 0 <= i < |bs| && bs[i] == b;
    var j :| 0 <= j < |bs| && bs[j] == c;
    TilesAt(bs, i, 0, hi, LEAST);
    if i < j { Apart(bs, i, j, 0, hi, LEAST); } else { Apart(bs, j, i, 0, hi, LEAST); }
  }

  /** Writing into the payload of one live block leaves every header and every other payload alone. */
  lemma PayloadWrite(m: seq<int>, m': seq<int>, bs: seq<Block>, g: Block, hi: nat)
    requires Tiles(bs, 0, hi, LEAST) && Linked(m, bs, 0) && g in Live(bs) && |m'| == |m| && hi + HDR <= |m|
    requires forall c :: 0 <= c < |m| && !(g.start + HDR <= c < g.End()) ==> m'[c] == m[c]
    ensures Linked(m', bs, 0) && LiveKept(m, m', bs, {g})
  {
    var k :| 0 <= k < |bs| && bs[k] == g;
    forall i | 0 <= i < |bs| ensures Header(m', bs[i].start, bs[i].used, bs[i].End(), PrevOf(bs, i, 0)) {
      assert Header(m, bs[i].start, bs[i].used, bs[i].End(), PrevOf(bs, i, 0));
      TilesAt(bs, i, 0, hi, LEAST);
      if i < k { Apart(bs, i, k, 0, hi, LEAST); }
      if k < i { Apart(bs, k, i, 0, hi, LEAST); }
    }
    forall b | b in Live(bs) && b != g ensures Kept(m, m', b) {
      LiveApart(bs, b, g, hi);
    }
  }

  /** What allocating, copying and freeing add up to: `m`, `m1`, `m2` and `m3` are the memories in between. */
  lemma MoveComposes(bs: seq<Block>, cs: seq<Block>, ds: seq<Block>, b: Block, g: Block, need: nat,
                     m: seq<int>, m1: seq<int>, m2: seq<int>, m3: seq<int>, hi: nat)
    requires Tiles(bs, 0, hi, LEAST) && Tiles(cs, 0, hi, LEAST) && Tiles(ds, 0, hi, LEAST)
    requires b in Live(bs) && g !in Live(bs) && Live(cs) == Live(bs) + {g} && Live(ds) == Live(cs) - {b}
    requires HDR + need <= g.span && hi <= |m| == |m1| == |m2| == |m3|
    requires LiveKept(m, m1, bs, {}) && LiveKept(m1, m2, cs, {g}) && LiveKept(m2, m3, cs, {b})
    requires HDR <= b.span && Moved(m1, b.start + HDR, m2, g.start + HDR, Min(b.span - HDR, need))
    ensures LiveAt(bs, b.start) && Reallocated(bs, ds, b.start + HDR, g.start + HDR, need, m, m3)
  {
    hide Tiles;
    BlockAtIs(bs, b, hi);
    BlockAtIs(ds, g, hi);
    LiveApart(cs, b, g, hi);
    LiveApart(cs, g, b, hi);
    assert Kept(m, m1, b) && Kept(m2, m3, g);
    forall c | c in Live(bs) && c != b ensures Kept(m, m3, c) {
      assert c in Live(cs) && c != g;
      assert Kept(m, m1, c) && Kept(m1, m2, c) && Kept(m2, m3, c);
    }
  }

  /** Keeping a block in place, cut to `need` bytes or left as it is, is a reallocation too. */
  lemma StayComposes(bs: seq<Block>, cs: seq<Block>, b: Block, b': Block, need: nat, m: seq<int>, m': seq<int>, hi: nat)
    requires Tiles(bs, 0, hi, LEAST) && Tiles(cs, 0, hi, LEAST) && b in Live(bs) && HDR <= b.span
    requires b'.used && b'.start == b.start && b'.span == HDR + need
    requires Live(cs) == Live(bs) - {b} + {b'} && hi <= |m| == |m'|
    requires Kept(m, m', b') && LiveKept(m, m', bs, {b})
    ensures LiveAt(bs, b.start) && Reallocated(bs, cs, b.start + HDR, b.start + HDR, need, m, m')
  {
    BlockAtIs(bs, b, hi);
    BlockAtIs(cs, b', hi);
  }

  /** The first fit is granted, unless it is an exact fit ending at heap_end. */
  ghost predicate Served(bs: seq<Block>, need: nat, hi: nat) {
    var i := FirstFit(bs, need);
    i < |bs| && !(bs[i].End() == hi && bs[i].span == HDR + need)
  }

  /** The chain after rt_malloc(need) took the first fit. */
  ghost function Via(bs: seq<Block>, need: nat): seq<Block> {
    var i := FirstFit(bs, Need(need));
    if i < |bs| then AllocAt(bs, i, Need(need), HDR, CUT) else bs
  }

  /** The block with payload `p` moved to `p'`: the first fit was taken for it, and the old block was freed. */
  ghost predicate MovedTo(bs: seq<Block>, cs: seq<Block>, p: int, p': int, need: nat)
    requires HDR <= p
  {
    var i, via := FirstFit(bs, Need(need)), Via(bs, need);
    i < |bs| && p' == bs[i].start + HDR && LiveAt(via, p - HDR) && cs == FreeAt(via, IndexOf(via, p - HDR))
  }

  lemma ViaIs(bs: seq<Block>, cs: seq<Block>, need: nat)
    requires var i := FirstFit(bs, Need(need)); i < |bs| && cs == AllocAt(bs, i, Need(need), HDR, CUT)
    ensures Via(bs, need) == cs
  {
  }

  lemma MovedToIs(bs: seq<Block>, cs: seq<Block>, ds: seq<Block>, p: nat, need: nat)
    requires var i := FirstFit(bs, Need(need)); i < |bs| && cs == AllocAt(bs, i, Need(need), HDR, CUT)
    requires HDR <= p && LiveAt(cs, p - HDR) && ds == FreeAt(cs, IndexOf(cs, p - HDR))
    ensures MovedTo(bs, ds, p, bs[FirstFit(bs, Need(need))].start + HDR, need)
  {
  }

  /** A block with `room` bytes is moved to hold `need`, even to shrink it, when cutting it would free no block worth
      having. */
  predicate Moves(room: int, need: nat) {
    need != room <= need + HDR + MIN_SIZE
  }

  /** What rt_realloc does with the block of payload `p`: it leaves it alone, cuts it in place, or moves it; only the
      move can fail, and then nothing changes. */
  ghost predicate Branched(bs: seq<Block>, cs: seq<Block>, p: int, r: Option<int>, need: nat, hi: nat)
    requires HDR <= p && LiveAt(bs, p - HDR)
  {
    var i := IndexOf(bs, p - HDR);
    var room := bs[i].span - HDR;
    && (r.None? <==> Moves(room, need) && !Served(bs, Need(need), hi))
    && (r.None? || need == room ==> cs == bs)
    && (!Moves(room, need) ==> r == Some(p))
    && (!Moves(room, need) && need != room ==>
          p + need <= bs[MergeTo(bs, i)].End() && cs == ResizeAt(bs, i, need, HDR))
    && (Moves(room, need) && r.Some? ==> MovedTo(bs, cs, p, r.value, need))
  }

  /** max_mem after that, for `top` before: both blocks are in use in the middle of a move. */
  ghost function TopAfter(bs: seq<Block>, p: int, r: Option<int>, need: nat, top: int): int
    requires HDR <= p && LiveAt(bs, p - HDR)
  {
    if r.Some? && Moves(bs[IndexOf(bs, p - HDR)].span - HDR, need) then Max(top, UsedSpan(Via(bs, need))) else top
  }

  /** `p` is the payload of the first fit, cut to size, and no other live payload changed. */
  ghost predicate Allocated(bs: seq<Block>, cs: seq<Block>, p: nat, need: nat, m: seq<int>, m': seq<int>) {
    var i := FirstFit(bs, need);
    && i < |bs| && p == bs[i].start + HDR
    && cs == AllocAt(bs, i, need, HDR, CUT)
    && LiveKept(m, m', bs, {})
  }

  lemma NoFitTooLarge(bs: seq<Block>, need: nat, hi: nat)
    requires Tiles(bs, 0, hi, LEAST) && hi < HDR + need
    ensures FirstFit(bs, need) == |bs|
  {
    var i := FirstFit(bs, need);
    if i < |bs| { TilesAt(bs, i, 0, hi, LEAST); }
  }

  /** The scan ends where only an exact fit at the very end can be left. */
  lemma ExactFitAtEnd(bs: seq<Block>, k: nat, need: nat, hi: nat)
    requires Tiles(bs, 0, hi, LEAST) && k <= |bs| && HDR + need <= hi
    requires forall j :: 0 <= j < k ==> !Fits(bs[j], need)
    requires StartAt(bs, k, hi) + HDR + need >= hi
    ensures !Served(bs, need, hi)
  {
    var i := FirstFit(bs, need);
    if i < |bs| {
      TilesAt(bs, i, 0, hi, LEAST);
      if k < i { Apart(bs, k, i, 0, hi, LEAST); }
    }
  }

  /** A block that fits and starts low enough is the one first fit serves. */
  lemma FoundFit(bs: seq<Block>, k: nat, need: nat, hi: nat)
    requires k < |bs| && Fits(bs[k], need) && (forall j :: 0 <= j < k ==> !Fits(bs[j], need))
    requires bs[k].start + HDR + need < hi
    ensures FirstFit(bs, need) == k && Served(bs, need, hi)
  {
  }

  class Heap {
    const memSize: nat           // mem_size_aligned
    const mem: array<int>
    var lfree: nat
    var usedMem: int
    var maxMem: int
    ghost var blocks: seq<Block>

    /** The offset of heap_end. */
    function HeapEnd(): nat { memSize + HDR }

    /** The memory holds the chain `blocks`, closed by the used header heap_end. */
    ghost predicate Chained()
      reads this, mem
    {
      && mem.Length == memSize + 2 * HDR
      && Tiles(blocks, 0, HeapEnd(), LEAST)
      && Linked(mem[..], blocks, 0)
      && mem[HeapEnd() + 2] == 1 && mem[HeapEnd() + 4] == HeapEnd()
    }

    ghost predicate Valid()
      reads this, mem
    {
      && LEAST - HDR <= memSize && memSize % ALIGN_SIZE == 0
      && Chained() && NoFreeNeighbours(blocks) && OnBoundaries(blocks)
      && lfree == LowestFree(blocks, HeapEnd())
      && usedMem == UsedSpan(blocks) <= maxMem
    }

    /** rt_system_heap_init. */
    constructor (begin_addr: nat, end_addr: nat)
      requires Align(begin_addr) + HDR + LEAST <= AlignDown(end_addr)
      ensures Valid() && blocks == [Block(0, HeapEnd(), false)] && usedMem == maxMem == 0
      ensures memSize == AlignDown(end_addr) - Align(begin_addr) - 2 * HDR && fresh(mem)
    {
      var size := AlignDown(end_addr) - Align(begin_addr) - 2 * HDR;
      memSize := size;
      mem := new int[size + 2 * HDR];
      lfree, usedMem, maxMem := 0, 0, 0;
      blocks := [Block(0, size + HDR, false)];
      new;
      mem[0], mem[2], mem[4], mem[8] := MAGIC, 0, size + HDR, 0;
      var end := size + HDR;
      mem[end], mem[end + 2], mem[end + 4], mem[end + 8] := MAGIC, 1, end, end;
      assert blocks[1..] == [];
    }

    /** What the header at block `i` says. */
    lemma HeaderAt(i: nat)
      requires Chained() && i < |blocks|
      ensures var b := blocks[i];
              && b.start + HDR <= mem.Length && LEAST <= b.span
              && mem[b.start] == MAGIC && mem[b.start + 2] == (if b.used then 1 else 0)
              && mem[b.start + 4] == b.End() == StartAt(blocks, i + 1, HeapEnd()) <= HeapEnd()
              && mem[b.start + 8] == PrevOf(blocks, i, 0) && (i == 0 ==> b.start == 0)
    {
      TilesAt(blocks, i, 0, HeapEnd(), LEAST);
      assert Header(mem[..], blocks[i].start, blocks[i].used, blocks[i].End(), PrevOf(blocks, i, 0));
    }

    /** plug_holes: merges the free block at `p`, the chain's block `i`, with its free neighbours. */
    method PlugHoles(p: nat, ghost i: nat)
      requires Chained() && i < |blocks| && blocks[i].start == p && !blocks[i].used
      requires lfree == LowestFree(blocks, HeapEnd())
      modifies this`lfree, this`blocks, mem
      ensures Chained() && blocks == FreeAt(old(blocks), i) && lfree == LowestFree(blocks, HeapEnd())
      ensures WritesOnly(old(mem[..]), mem[..], old(blocks)[MergeFrom(old(blocks), i)].start,
                         StartAt(old(blocks), MergeTo(old(blocks), i) + 1, HeapEnd()))
    {
      hide Linked, Tiles, WritesOnly, LowestFree;
      ghost var bs, l, r := blocks, MergeFrom(blocks, i), MergeTo(blocks, i);
      ghost var m := mem[..];
      TilesAt(bs, i, 0, HeapEnd(), LEAST);
      TilesAt(bs, l, 0, HeapEnd(), LEAST);
      MergeForward(p, i);
      ghost var m1 := mem[..];
      MergeBackward(p, i);
      assert blocks == FreeAt(bs, i);
      WritesCompose(m, m1, mem[..], p, bs[l].start, StartAt(bs, r + 1, HeapEnd()));
    }

    /** Lets the free block `l` at `x` take in its successor at `y`. */
    method Join(x: nat, y: nat, ghost l: nat)
      requires Chained() && l + 1 < |blocks| && blocks[l].start == x && blocks[l + 1].start == y && !blocks[l].used
      modifies this`blocks, mem
      ensures Chained()
      ensures x <= old(blocks)[l + 1].End() && blocks == Joined(old(blocks), l)
      ensures WritesOnly(old(mem[..]), mem[..], x, StartAt(old(blocks), l + 2, HeapEnd()))
    {
      hide Linked, Tiles, WritesOnly;
      ghost var bs, m := blocks, mem[..];
      HeaderAt(l);
      HeaderAt(l + 1);
      if l + 2 < |bs| { HeaderAt(l + 2); }
      JoinTiles(bs, l, HeapEnd());
      JoinLinks(m, bs, l, HeapEnd());
      mem[x + 4] := mem[y + 4];
      mem[mem[y + 4] + 8] := x;
      assert mem[..] == JoinNext(m, x, bs[l + 1].End());
      blocks := Joined(bs, l);
    }

    /** The forward half: takes in the next block if it is free and not heap_end. */
    method MergeForward(p: nat, ghost i: nat)
      requires Chained() && i < |blocks| && blocks[i].start == p && !blocks[i].used
      requires lfree == LowestFree(blocks, HeapEnd())
      modifies this`lfree, this`blocks, mem
      ensures Chained() && lfree == LowestFree(blocks, HeapEnd())
      ensures var bs := old(blocks); var r := MergeTo(bs, i);
              && bs[r].End() >= p
              && blocks == bs[..i] + [Rest(p, bs[r].End())] + bs[r + 1..]
              && WritesOnly(old(mem[..]), mem[..], p, StartAt(bs, r + 1, HeapEnd()))
    {
      hide Linked, Tiles, WritesOnly, LowestFree;
      ghost var bs, m := blocks, mem[..];
      HeaderAt(i);
      var nmem := mem[p + 4];
      if i + 1 < |bs| { HeaderAt(i + 1); }
      if p != nmem && mem[nmem + 2] == 0 && nmem != HeapEnd() {
        if lfree == nmem {
          lfree := p;
        }
        Join(p, nmem, i);
        SameLowest(bs, blocks, i, HeapEnd());
        LowestAtMost(bs, i, 0, HeapEnd());
      } else {
        assert bs == bs[..i] + [bs[i]] + bs[i + 1..];
        WritesNothing(m, p, StartAt(bs, i + 1, HeapEnd()));
      }
    }

    /** The backward half: lets the previous block, if it is free, take in block `i`. */
    method MergeBackward(p: nat, ghost i: nat)
      requires Chained() && i < |blocks| && blocks[i].start == p && !blocks[i].used
      requires lfree == LowestFree(blocks, HeapEnd())
      modifies this`lfree, this`blocks, mem
      ensures Chained() && lfree == LowestFree(blocks, HeapEnd())
      ensures var bs := old(blocks); var l := MergeFrom(bs, i);
              && bs[l].start <= bs[i].End()
              && blocks == bs[..l] + [Rest(bs[l].start, bs[i].End())] + bs[i + 1..]
              && WritesOnly(old(mem[..]), mem[..], bs[l].start, StartAt(bs, i + 1, HeapEnd()))
    {
      hide Linked, Tiles, WritesOnly, LowestFree;
      ghost var bs, m := blocks, mem[..];
      HeaderAt(i);
      var pmem := mem[p + 8];
      if i > 0 { HeaderAt(i - 1); }
      if pmem != p && mem[pmem + 2] == 0 {
        if lfree == p {
          lfree := pmem;
        }
        Join(pmem, p, i - 1);
        SameLowest(bs, blocks, i - 1, HeapEnd());
        LowestAtMost(bs, i - 1, 0, HeapEnd());
      } else {
        assert bs == bs[..i] + [bs[i]] + bs[i + 1..];
        WritesNothing(m, p, StartAt(bs, i + 1, HeapEnd()));
      }
    }

    /** Sets the used flag of block `i`. */
    method Mark(p: nat, used: bool, ghost i: nat)
      requires Chained() && i < |blocks| && blocks[i].start == p
      modifies this`blocks, mem
      ensures Chained() && blocks == old(blocks)[i := old(blocks)[i].(used := used)]
      ensures WritesOnly(old(mem[..]), mem[..], p, StartAt(old(blocks), i + 1, HeapEnd()))
    {
      hide Linked, Tiles;
      ghost var bs, m := blocks, mem[..];
      HeaderAt(i);
      if i + 1 < |bs| { HeaderAt(i + 1); }
      mem[p + 2] := if used then 1 else 0;
      mem[p] := MAGIC;
      MarkTiles(bs, i, used, HeapEnd());
      MarkLinks(m, mem[..], bs, i, used, HeapEnd());
      blocks := bs[i := bs[i].(used := used)];
    }

    /** Cuts a free remainder, starting at `q`, off the used block `i` at `p`. */
    method Cut(p: nat, q: nat, ghost i: nat)
      requires Chained() && i < |blocks| && blocks[i].start == p && blocks[i].used
      requires p + LEAST <= q && q + LEAST <= blocks[i].End()
      modifies this`blocks, mem
      ensures Chained()
      ensures blocks == old(blocks)[..i] + [Block(p, q - p, true), Rest(q, old(blocks)[i].End())] + old(blocks)[i + 1..]
      ensures WritesOnly(old(mem[..]), mem[..], p, StartAt(old(blocks), i + 1, HeapEnd()))
      ensures Kept(old(mem[..]), mem[..], Block(p, q - p, true))
    {
      hide Linked, Tiles, WritesOnly;
      ghost var bs, m := blocks, mem[..];
      HeaderAt(i);
      if i + 1 < |bs| { HeaderAt(i + 1); }
      ghost var e := bs[i].End();
      CutHeaders(m, p, q, HeapEnd(), PrevOf(bs, i, 0));
      WriteRest(p, q);
      CutTiles(bs, i, q, HeapEnd());
      LinkedSplice(m, mem[..], bs, i, i + 1, [Block(p, q - p, true), Rest(q, e)], HeapEnd(), LEAST);
      blocks := bs[..i] + [Block(p, q - p, true), Rest(q, e)] + bs[i + 1..];
    }

    /** The header of the remainder at `q`, linked in behind the block at `p`. */
    method WriteRest(p: nat, q: nat)
      requires HeapEnd() + HDR <= mem.Length && p + HDR <= q <= HeapEnd() && q + HDR <= mem[p + 4] <= HeapEnd()
      modifies mem
      ensures mem[..] == CutCells(old(mem[..]), p, q, HeapEnd())
    {
      mem[q] := MAGIC;
      mem[q + 2] := 0;
      mem[q + 4] := mem[p + 4];
      mem[q + 8] := p;
      mem[p + 4] := q;
      if mem[q + 4] != HeapEnd() {
        mem[mem[q + 4] + 8] := q;
      }
    }

    /** rt_malloc(size) does not loop for ever: it does on a heap of 8 bytes asked for 1 to 8, see TinyHeapReturns. */
    predicate Returns(size: nat) {
      !(size != 0 && Align(size) <= memSize < MIN_SIZE_ALIGNED)
    }

    /** rt_malloc. `size` does not wrap when rounded up. */
    method Malloc(size: nat) returns (r: Option<nat>)
      requires Valid() && Returns(size)
      modifies this, mem
      ensures Valid()
      ensures r.Some? <==> size != 0 && Served(old(blocks), Need(size), HeapEnd())
      ensures r.None? ==>
        blocks == old(blocks) && mem[..] == old(mem[..]) && usedMem == old(usedMem) && maxMem == old(maxMem)
      ensures r.Some? ==> Allocated(old(blocks), blocks, r.value, Need(size), old(mem[..]), mem[..])
      ensures r.Some? ==> maxMem == Max(old(maxMem), usedMem)
    {
      hide Linked, Tiles, NoFreeNeighbours, OnBoundaries, LowestFree, UsedSpan, FirstFit, LiveKept;
      if size == 0 {
        return None;
      }
      var need := Align(size);
      if need > memSize {
        NoFitTooLarge(blocks, Need(size), HeapEnd());
        return None;
      }
      if need < MIN_SIZE_ALIGNED {
        need := MIN_SIZE_ALIGNED;
      }
      ghost var k := LowestIndex(blocks);
      LowestFreeAt(blocks, k, HeapEnd());
      var ptr := lfree;
      while ptr < memSize - need
        invariant Valid() && blocks == old(blocks) && mem[..] == old(mem[..]) && usedMem == old(usedMem)
          && maxMem == old(maxMem)
        invariant k <= |blocks| && ptr == StartAt(blocks, k, HeapEnd())
        invariant forall j :: 0 <= j < k ==> !Fits(blocks[j], need)
        decreases |blocks| - k
      {
        HeaderAt(k);
        if mem[ptr + 2] == 0 && mem[ptr + 4] - (ptr + HDR) >= need {
          FoundFit(blocks, k, need, HeapEnd());
          Grant(ptr, need, k);
          return Some(ptr + HDR);
        }
        ptr := mem[ptr + 4];
        k := k + 1;
      }
      ExactFitAtEnd(blocks, k, need, HeapEnd());
      return None;
    }

    /** The body of the search loop of rt_malloc, for the block `i` it found at `ptr`. */
    method Grant(ptr: nat, need: nat, ghost i: nat)
      requires Valid() && i < |blocks| && blocks[i].start == ptr && Fits(blocks[i], need)
      requires MIN_SIZE_ALIGNED <= need && need % ALIGN_SIZE == 0
      modifies this, mem
      ensures Valid() && blocks == AllocAt(old(blocks), i, need, HDR, CUT)
      ensures LiveKept(old(mem[..]), mem[..], old(blocks), {}) && maxMem == Max(old(maxMem), usedMem)
    {
      hide Linked, Tiles, WritesOnly, LowestFree, UsedSpan, FreePayload, LiveKept, NoFreeNeighbours;
      ghost var bs, m := blocks, mem[..];
      HeaderAt(i);
      LowestAtMost(bs, i, 0, HeapEnd());
      AllocAtChain(bs, i, need, HDR, CUT, 0, HeapEnd(), LEAST);
      Mark(ptr, true, i);
      ghost var m1 := mem[..];
      Carve(ptr, need, i);
      MarkedAlloc(bs, i, need);
      WritesCompose(m, m1, mem[..], ptr, ptr, StartAt(bs, i + 1, HeapEnd()));
      if maxMem < usedMem {
        maxMem := usedMem;
      }
      StretchKeepsLive(m, mem[..], bs, i, i + 1, {}, HeapEnd(), LEAST);
      GrantBoundaries(bs, i, need);
      assert forall j :: 0 <= j < i ==> blocks[j] == bs[j];
      if ptr == lfree {
        FindLowest(i);
      } else {
        AllocLowest(bs, i, need, HeapEnd());
      }
    }

    /** Cuts the used block `i` to `need` bytes if a block remains, and accounts for it. */
    method Carve(ptr: nat, need: nat, ghost i: nat)
      requires Chained() && i < |blocks| && blocks[i].start == ptr && blocks[i].used
      requires HDR + need <= blocks[i].span && MIN_SIZE_ALIGNED <= need
      modifies this`blocks, this`usedMem, mem
      ensures Chained() && blocks == AllocAt(old(blocks), i, need, HDR, CUT)
      ensures usedMem == old(usedMem) + Granted(old(blocks)[i], need, HDR, CUT).span
      ensures WritesOnly(old(mem[..]), mem[..], ptr, StartAt(old(blocks), i + 1, HeapEnd()))
    {
      hide Linked, Tiles, WritesOnly;
      HeaderAt(i);
      if mem[ptr + 4] - (ptr + HDR) >= need + HDR + MIN_SIZE_ALIGNED {
        Cut(ptr, ptr + HDR + need, i);
        usedMem := usedMem + need + HDR;
      } else {
        usedMem := usedMem + mem[ptr + 4] - ptr;
        WritesNothing(mem[..], ptr, StartAt(blocks, i + 1, HeapEnd()));
        assert blocks == blocks[..i] + [blocks[i]] + blocks[i + 1..];
      }
    }

    /** The loop that moves lfree up to the next free block, from block `i`. */
    method FindLowest(ghost i: nat)
      requires Chained() && i < |blocks| && lfree == blocks[i].start
      requires forall j :: 0 <= j < i ==> blocks[j].used
      modifies this`lfree
      ensures lfree == LowestFree(blocks, HeapEnd())
    {
      hide Linked, Tiles, LowestFree;
      ghost var k := i;
      HeaderAt(k);
      while lfree != HeapEnd() && mem[lfree + 2] != 0
        invariant k <= |blocks| && lfree == StartAt(blocks, k, HeapEnd())
        invariant k < |blocks| ==> lfree < HeapEnd() && mem[lfree + 2] == if blocks[k].used then 1 else 0
        invariant forall j :: 0 <= j < k ==> blocks[j].used
        decreases |blocks| - k
      {
        HeaderAt(k);
        lfree := mem[lfree + 4];
        k := k + 1;
        if k < |blocks| { HeaderAt(k); }
      }
      LowestFreeAt(blocks, k, HeapEnd());
    }

    /** `rmem` points into the heap; calls with other pointers are ignored. */
    predicate InHeap(rmem: Option<int>) {
      rmem.Some? && 0 <= rmem.value < HeapEnd()
    }

    /** `rmem` is the payload of a live block. */
    ghost predicate IsLive(rmem: int)
      reads this
    {
      HDR <= rmem && LiveAt(blocks, rmem - HDR)
    }

    /** rt_free. */
    method Free(rmem: Option<int>)
      requires Valid() && (InHeap(rmem) ==> IsLive(rmem.value))
      modifies this, mem
      ensures Valid() && maxMem == old(maxMem)
      ensures !InHeap(rmem) ==> blocks == old(blocks) && mem[..] == old(mem[..])
      ensures InHeap(rmem) ==>
        var i := IndexOf(old(blocks), rmem.value - HDR);
        blocks == FreeAt(old(blocks), i) && LiveKept(old(mem[..]), mem[..], old(blocks), {old(blocks)[i]})
    {
      if !InHeap(rmem) {
        return;
      }
      FreeBlock(rmem.value - HDR, IndexOf(blocks, rmem.value - HDR));
    }

    method FreeBlock(p: nat, ghost i: nat)
      requires Valid() && i < |blocks| && blocks[i].start == p && blocks[i].used
      modifies this, mem
      ensures Valid() && maxMem == old(maxMem) && blocks == FreeAt(old(blocks), i)
      ensures LiveKept(old(mem[..]), mem[..], old(blocks), {old(blocks)[i]})
    {
      hide Linked, Tiles, WritesOnly, LowestFree, UsedSpan, FreePayload, LiveKept, NoFreeNeighbours, OnBoundaries,
        FreeAt;
      ghost var bs, m := blocks, mem[..];
      ghost var l, r := MergeFrom(bs, i), MergeTo(bs, i);
      HeaderAt(i);
      MarkLowest(bs, i, 0, HeapEnd());
      Mark(p, false, i);
      ghost var bs1, m1 := blocks, mem[..];
      HeaderAt(i);
      if p < lfree {
        lfree := p;
      }
      usedMem := usedMem - (mem[p + 4] - p);
      PlugHoles(p, i);
      FreeAtMarked(bs, i, false);
      FreeAtChain(bs, i, HDR, 0, HeapEnd(), LEAST);
      FreeBoundaries(bs, i);
      assert bs1[l].start == bs[l].start && StartAt(bs1, r + 1, HeapEnd()) == StartAt(bs, r + 1, HeapEnd());
      FreeFrame(m, m1, mem[..], bs, i, HeapEnd());
    }

    /** Cuts the used block `i` at `q`; lfree follows if the rest is the lowest free block now. */
    method CutFree(p: nat, q: nat, ghost i: nat)
      requires Chained() && i < |blocks| && blocks[i].start == p && blocks[i].used
      requires p + LEAST <= q && q + LEAST <= blocks[i].End() && lfree == LowestFree(blocks, HeapEnd())
      modifies this`lfree, this`blocks, mem
      ensures Chained() && lfree == LowestFree(blocks, HeapEnd())
      ensures blocks == old(blocks)[..i] + [Block(p, q - p, true), Rest(q, old(blocks)[i].End())] + old(blocks)[i + 1..]
      ensures WritesOnly(old(mem[..]), mem[..], p, StartAt(old(blocks), i + 1, HeapEnd()))
      ensures Kept(old(mem[..]), mem[..], Block(p, q - p, true))
    {
      hide Linked, Tiles, WritesOnly, LowestFree, Kept;
      CutLowest(blocks, i, Block(p, q - p, true), Rest(q, blocks[i].End()), 0, HeapEnd());
      Cut(p, q, i);
      if q < lfree {
        lfree := q;
      }
    }

    /** The in-place branch of rt_realloc: keeps `need` bytes of block `i` at `p`, frees the rest. */
    method Shrink(p: nat, need: nat, ghost i: nat)
      requires Valid() && i < |blocks| && blocks[i].start == p && blocks[i].used
      requires 0 < need && need % ALIGN_SIZE == 0 && need + HDR + MIN_SIZE < blocks[i].span - HDR
      modifies this, mem
      ensures Valid() && maxMem == old(maxMem)
      ensures p + HDR + need <= old(blocks)[MergeTo(old(blocks), i)].End()
        && blocks == ResizeAt(old(blocks), i, need, HDR)
      ensures LiveKept(old(mem[..]), mem[..], old(blocks), {old(blocks)[i]})
      ensures Kept(old(mem[..]), mem[..], Block(p, HDR + need, true))
    {
      hide Linked, Tiles, WritesOnly, LowestFree, UsedSpan, FreePayload, LiveKept, NoFreeNeighbours, OnBoundaries,
        FreeAt, ResizeAt, Kept;
      ghost var bs, m := blocks, mem[..];
      ghost var r := MergeTo(bs, i);
      HeaderAt(i);
      HeaderAt(r);
      usedMem := usedMem - (mem[p + 4] - p - HDR - need);
      var q := p + HDR + need;
      CutEnds(bs, i, Block(p, q - p, true), Rest(q, bs[i].End()), HeapEnd());
      CutFree(p, q, i);
      ghost var m1 := mem[..];
      PlugHoles(q, i + 1);
      CutThenMerge(bs, i, need);
      ResizeAtChain(bs, i, need, HDR, 0, HeapEnd(), LEAST);
      ResizeBoundaries(bs, i, need);
      ShrinkFrame(m, m1, mem[..], bs, i, q, HeapEnd());
    }

    /** The moving branch of rt_realloc: a new block, a copy, and the old block freed. */
    method Move(rmem: nat, need: nat) returns (r: Option<nat>)
      requires Valid() && IsLive(rmem) && 0 < need && need % ALIGN_SIZE == 0 && Returns(need)
      modifies this, mem
      ensures Valid()
      ensures r.Some? <==> Served(old(blocks), Need(need), HeapEnd())
      ensures r.None? ==>
        blocks == old(blocks) && mem[..] == old(mem[..]) && usedMem == old(usedMem) && maxMem == old(maxMem)
      ensures r.Some? ==>
        && MovedTo(old(blocks), blocks, rmem, r.value, need)
        && maxMem == Max(old(maxMem), UsedSpan(Via(old(blocks), need)))
      ensures r.Some? ==> Reallocated(old(blocks), blocks, rmem, r.value, need, old(mem[..]), mem[..])
    {
      hide Linked, Tiles, WritesOnly, LowestFree, UsedSpan, FreePayload, NoFreeNeighbours, OnBoundaries, FreeAt,
        AllocAt, LiveKept, Moved, Reallocated, Served, Via, MovedTo;
      ghost var bs, m := blocks, mem[..];
      ghost var b := BlockAt(bs, rmem - HDR);
      HeaderAt(IndexOf(bs, rmem - HDR));
      var size := mem[rmem - HDR + 4] - rmem;
      r := Malloc(need);
      if r.Some? {
        ghost var cs, m1 := blocks, mem[..];
        ghost var i := FirstFit(bs, Need(need));
        ghost var g := Granted(bs[i], Need(need), HDR, CUT);
        AllocAtChain(bs, i, Need(need), HDR, CUT, 0, HeapEnd(), LEAST);
        assert b in Live(bs) && g in Live(cs);
        ViaIs(bs, cs, need);
        ghost var m2 := Carry(rmem, r.value, if size < need then size else need, b, g);
        MovedToIs(bs, cs, blocks, rmem, need);
        MoveComposes(bs, cs, blocks, b, g, need, m, m1, m2, mem[..], HeapEnd());
      }
    }

    /** Copies `n` bytes from the live block `b` to the live block `g` and frees `b`; `m` is the memory in between. */
    method Carry(rmem: nat, nmem: nat, n: nat, ghost b: Block, ghost g: Block) returns (ghost m: seq<int>)
      requires Valid() && b in Live(blocks) && g in Live(blocks) && b != g
      requires rmem == b.start + HDR && nmem == g.start + HDR && HDR + n <= b.span && HDR + n <= g.span
      modifies this, mem
      ensures Valid() && Live(blocks) == Live(old(blocks)) - {b} && |m| == mem.Length && maxMem == old(maxMem)
      ensures LiveAt(old(blocks), b.start) && blocks == FreeAt(old(blocks), IndexOf(old(blocks), b.start))
      ensures Moved(old(mem[..]), rmem, m, nmem, n) && LiveKept(old(mem[..]), m, old(blocks), {g})
      ensures LiveKept(m, mem[..], old(blocks), {b})
    {
      hide Linked, Tiles, WritesOnly, LowestFree, UsedSpan, FreePayload, NoFreeNeighbours, OnBoundaries, FreeAt,
        LiveKept, Moved;
      ghost var cs, m1 := blocks, mem[..];
      LiveApart(cs, b, g, HeapEnd());
      LiveApart(cs, g, b, HeapEnd());
      BlockAtIs(cs, b, HeapEnd());
      MemCopy(mem, nmem, rmem, n);
      m := mem[..];
      PayloadWrite(m1, m, cs, g, HeapEnd());
      FreeAtChain(cs, IndexOf(cs, rmem - HDR), HDR, 0, HeapEnd(), LEAST);
      Free(Some(rmem));
    }

    /** rt_realloc. `newsize` does not wrap when rounded up. */
    method Realloc(rmem: Option<int>, newsize: nat) returns (r: Option<int>)
      requires Valid() && (InHeap(rmem) ==> IsLive(rmem.value)) && (rmem.None? ==> Returns(newsize))
      modifies this, mem
      ensures Valid()
      // too large, a pointer from elsewhere, or no room: nothing happens
      ensures Align(newsize) > memSize ==> r.None? && blocks == old(blocks) && mem[..] == old(mem[..])
      ensures 0 < Align(newsize) <= memSize && rmem.Some? && !InHeap(rmem) ==>
        r == rmem && blocks == old(blocks) && mem[..] == old(mem[..])
      ensures 0 < newsize && r.None? ==> blocks == old(blocks) && mem[..] == old(mem[..])
      ensures newsize == 0 || r.None? || (rmem.Some? && !InHeap(rmem)) ==> maxMem == old(maxMem)
      // to nothing, or from nothing
      ensures newsize == 0 ==> r.None?
      ensures newsize == 0 && !InHeap(rmem) ==> blocks == old(blocks) && mem[..] == old(mem[..])
      ensures newsize == 0 && InHeap(rmem) ==>
        var i := IndexOf(old(blocks), rmem.value - HDR);
        blocks == FreeAt(old(blocks), i) && LiveKept(old(mem[..]), mem[..], old(blocks), {old(blocks)[i]})
      ensures 0 < Align(newsize) <= memSize && rmem.None? ==>
        && (r.Some? <==> Served(old(blocks), Need(newsize), HeapEnd()))
        && (r.Some? ==> 0 <= r.value && Allocated(old(blocks), blocks, r.value, Need(newsize), old(mem[..]), mem[..]))
        && (r.Some? ==> maxMem == Max(old(maxMem), usedMem))
      // a live block keeps its bytes
      ensures 0 < newsize && InHeap(rmem) && r.Some? ==>
        0 <= r.value && Reallocated(old(blocks), blocks, rmem.value, r.value, Align(newsize), old(mem[..]), mem[..])
      ensures 0 < Align(newsize) <= memSize && InHeap(rmem) ==>
        && Branched(old(blocks), blocks, rmem.value, r, Align(newsize), HeapEnd())
        && maxMem == TopAfter(old(blocks), rmem.value, r, Align(newsize), old(maxMem))
    {
      hide Linked, Tiles, WritesOnly, LowestFree, UsedSpan, FreePayload, NoFreeNeighbours, OnBoundaries, FreeAt,
        AllocAt, LiveKept, Reallocated, Allocated, Served, Branched, TopAfter;
      var need := Align(newsize);
      if need > memSize {
        return None;
      } else if need == 0 {
        Free(rmem);
        return None;
      }
      if rmem.None? {
        var p := Malloc(need);
        return if p.Some? then Some(p.value) else None;
      }
      if !InHeap(rmem) {
        return rmem;
      }
      r := Resize(rmem.value, need);
    }

    /** The rest of rt_realloc, for the live block with payload `rmem`. */
    method Resize(rmem: int, need: nat) returns (r: Option<int>)
      requires Valid() && IsLive(rmem) && 0 < need <= memSize && need % ALIGN_SIZE == 0
      modifies this, mem
      ensures Valid()
      ensures Branched(old(blocks), blocks, rmem, r, need, HeapEnd())
      ensures maxMem == TopAfter(old(blocks), rmem, r, need, old(maxMem))
      ensures r.None? ==> blocks == old(blocks) && mem[..] == old(mem[..]) && maxMem == old(maxMem)
      ensures r.Some? ==> 0 <= r.value && Reallocated(old(blocks), blocks, rmem, r.value, need, old(mem[..]), mem[..])
    {
      hide Linked, Tiles, WritesOnly, LowestFree, UsedSpan, FreePayload, NoFreeNeighbours, OnBoundaries, FreeAt,
        AllocAt, LiveKept, Reallocated, Served, Via, MovedTo, ResizeAt;
      ghost var bs, m := blocks, mem[..];
      ghost var i := IndexOf(bs, rmem - HDR);
      HeaderAt(i);
      var size := mem[rmem - HDR + 4] - rmem;
      if size == need {
        KeptAll(m, bs, {bs[i]});
        assert bs[i] in Live(bs) && Live(bs) == Live(bs) - {bs[i]} + {bs[i]};
        StayComposes(bs, bs, bs[i], bs[i], need, m, m, HeapEnd());
        return Some(rmem);
      }
      if need + HDR + MIN_SIZE < size {
        HeaderAt(MergeTo(bs, i));
        ResizeAtChain(bs, i, need, HDR, 0, HeapEnd(), LEAST);
        Shrink(rmem - HDR, need, i);
        StayComposes(bs, blocks, bs[i], Block(rmem - HDR, HDR + need, true), need, m, mem[..], HeapEnd());
        return Some(rmem);
      }
      var p := Move(rmem, need);
      return if p.Some? then Some(p.value) else None;
    }
  }

  /** rt_system_heap_init makes a heap, refuses the range, or leaves a heap of no bytes. */
  datatype Init = Refused | Barren | Ready(heap: Heap)

  /** rt_system_heap_init: refuses a range without room for two headers. A heap of no bytes refuses every request, see
      TinyHeapReturns. */
  method SystemHeapInit(begin_addr: nat, end_addr: nat) returns (r: Init)
    ensures r.Refused? <==> !(AlignDown(end_addr) > 2 * HDR && AlignDown(end_addr) - 2 * HDR >= Align(begin_addr))
    ensures r.Barren? <==> AlignDown(end_addr) > 2 * HDR && AlignDown(end_addr) - 2 * HDR == Align(begin_addr)
    ensures r.Ready? ==>
      && fresh(r.heap) && fresh(r.heap.mem) && r.heap.Valid() && r.heap.blocks == [Block(0, r.heap.HeapEnd(), false)]
      && r.heap.memSize == AlignDown(end_addr) - Align(begin_addr) - 2 * HDR && r.heap.usedMem == r.heap.maxMem == 0
  {
    var begin_align, end_align := Align(begin_addr), AlignDown(end_addr);
    if !(end_align > 2 * HDR && end_align - 2 * HDR >= begin_align) {
      return Refused;
    }
    if end_align - 2 * HDR == begin_align {
      return Barren;
    }
    MultiplesApart(begin_align + 2 * HDR, end_align);
    var heap := new Heap(begin_addr, end_addr);
    return Ready(heap);
  }

  lemma MultiplesApart(a: nat, b: nat)
    requires a % ALIGN_SIZE == 0 && b % ALIGN_SIZE == 0 && a < b
    ensures a + ALIGN_SIZE <= b
  {
  }

  /** Below 16 bytes rt_malloc gets as far as its search if and only if the heap has 8 bytes and is asked for 1 to 8;
      all other requests are refused before. */
  lemma TinyHeapReturns(memSize: nat, size: nat)
    requires memSize % ALIGN_SIZE == 0 && memSize < MIN_SIZE_ALIGNED
    ensures size != 0 && Align(size) <= memSize <==> memSize == 8 && 1 <= size <= 8
  {
    if size != 0 { MultiplesApart(0, Align(size)); }
  }

  /** Where the search loop of rt_malloc stands after `turns` turns without finding a block. */
  function ScanAfter(m: seq<int>, ptr: int, turns: nat): int
    decreases turns
  {
    if turns == 0 || !(0 <= ptr && ptr + 4 < |m|) then ptr else ScanAfter(m, m[ptr + 4], turns - 1)
  }

  /** There the search never ends: raised to 16 the request exceeds the heap, the bound of the loop wraps around, and
      the loop stays at heap_end for ever. */
  lemma {:induction false} EightByteHeapLoops(m: seq<int>, size: nat, ptr: nat, turns: nat)
    requires Header(m, 0, false, 24, 0) && Header(m, 24, true, 24, 24) && (ptr == 0 || ptr == 24) && 1 <= size <= 8
    ensures var p := ScanAfter(m, ptr, turns);
            && (p == 0 || p == 24) && p < (8 - Need(size)) % 0x1_0000_0000
            && !(m[p + 2] == 0 && m[p + 4] - (p + HDR) >= Need(size))
    decreases turns
  {
    if turns > 0 { EightByteHeapLoops(m, size, 24, turns - 1); }
  }
}
