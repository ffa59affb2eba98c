/** What allocating, freeing and resizing do to a block chain. */
module TilingOps {
  import opened Tiling

  /** Block `i` given to a request of `need` bytes: split if the rest spans at least `cut` bytes. */
  function AllocAt(bs: seq<Block>, i: nat, need: nat, h: nat, cut: nat): seq<Block>
    requires i < |bs| && h + need <= bs[i].span
  {
    var b := bs[i];
    bs[..i] + (if b.span >= h + need + cut then [Granted(b, need, h, cut), Rest(b.start + h + need, b.End())]
               else [Granted(b, need, h, cut)]) + bs[i + 1..]
  }

  /** The live block a request of `need` bytes gets out of the free block `b`. */
  function Granted(b: Block, need: nat, h: nat, cut: nat): Block {
    Block(b.start, if b.span >= h + need + cut then h + need else b.span, true)
  }

  function Rest(from: nat, to: nat): Block
    requires from <= to
  {
    Block(from, to - from, false)
  }

  function Length(from: nat, to: nat): nat { if to >= from then to - from else 0 }

  /** First and last block of the free stretch that results from freeing block `i`. */
  function MergeFrom(bs: seq<Block>, i: nat): nat
    requires i < |bs|
  {
    if i > 0 && !bs[i - 1].used then i - 1 else i
  }

  function MergeTo(bs: seq<Block>, i: nat): nat
    requires i < |bs|
  {
    if i + 1 < |bs| && !bs[i + 1].used then i + 1 else i
  }

  /** Block `i` freed and merged with its free neighbours. */
  function FreeAt(bs: seq<Block>, i: nat): seq<Block>
    requires i < |bs|
  {
    var l, r := MergeFrom(bs, i), MergeTo(bs, i);
    bs[..l] + [Block(bs[l].start, Length(bs[l].start, bs[r].End()), false)] + bs[r + 1..]
  }

  /** The used block `i` resized to `need` bytes, the boundary to the free space behind it moving along. */
  function ResizeAt(bs: seq<Block>, i: nat, need: nat, h: nat): seq<Block>
    requires i < |bs| && bs[i].start + h + need <= bs[MergeTo(bs, i)].End()
  {
    var r := MergeTo(bs, i);
    var b := Block(bs[i].start, h + need, true);
    bs[..i] + [b, Rest(b.End(), bs[r].End())] + bs[r + 1..]
  }

  lemma NeighboursJoin(a: seq<Block>, b: seq<Block>)
    requires NoFreeNeighbours(a) && NoFreeNeighbours(b)
    requires a == [] || b == [] || a[|a| - 1].used || b[0].used
    ensures NoFreeNeighbours(a + b)
  {
    var c := a + b;
    forall i, j | 0 <= i && j == i + 1 && j < |c| ensures c[i].used || c[j].used {
      if i >= |a| { assert c[i] == b[i - |a|] && c[j] == b[j - |a|]; }
    }
  }

  lemma NeighboursSplit(bs: seq<Block>, i: nat)
    requires NoFreeNeighbours(bs) && i <= |bs|
    ensures NoFreeNeighbours(bs[..i]) && NoFreeNeighbours(bs[i..])
    ensures 0 < i < |bs| ==> bs[i - 1].used || bs[i].used
  {
    var c := bs[i..];
    forall k, j | 0 <= k && j == k + 1 && j < |c| ensures c[k].used || c[j].used {
      assert c[k] == bs[i + k] && c[j] == bs[i + j];
    }
  }

  /** A stretch `l..r` of the chain replaced by `mid`: the chain stays canonical if its seams do. */
  lemma SpliceCanonical(bs: seq<Block>, l: nat, r: nat, mid: seq<Block>, lo: nat, hi: nat, least: nat)
    requires Canonical(bs, lo, hi, least) && l <= r <= |bs| && mid != []
    requires Tiles(mid, StartAt(bs, l, hi), StartAt(bs, r, hi), least) && NoFreeNeighbours(mid)
    requires l == 0 || bs[l - 1].used || mid[0].used
    requires r == |bs| || bs[r].used || mid[|mid| - 1].used
    ensures Canonical(bs[..l] + mid + bs[r..], lo, hi, least)
  {
    Splice(bs, l, r, mid, lo, hi, least);
    NeighboursSplit(bs, l);
    NeighboursSplit(bs, r);
    NeighboursJoin(bs[..l], mid);
    NeighboursJoin(bs[..l] + mid, bs[r..]);
  }

  /** The sums after such a replacement. */
  lemma SpliceSums(bs: seq<Block>, l: nat, r: nat, mid: seq<Block>, h: nat)
    requires l <= r <= |bs|
    ensures UsedSpan(bs[..l] + mid + bs[r..]) == UsedSpan(bs) - UsedSpan(bs[l..r]) + UsedSpan(mid)
    ensures FreePayload(bs[..l] + mid + bs[r..], h)
      == FreePayload(bs, h) - FreePayload(bs[l..r], h) + FreePayload(mid, h)
  {
    SumsJoin(bs[..l] + mid, bs[r..], h, 0);
    SumsJoin(bs[..l], mid, h, 0);
    assert bs == bs[..l] + bs[l..r] + bs[r..];
    SumsJoin(bs[..l] + bs[l..r], bs[r..], h, 0);
    SumsJoin(bs[..l], bs[l..r], h, 0);
  }

  /** The live blocks after such a replacement. */
  lemma SpliceLive(bs: seq<Block>, l: nat, r: nat, mid: seq<Block>, lo: nat, hi: nat, least: nat)
    requires Tiles(bs, lo, hi, least) && l <= r <= |bs|
    ensures Live(bs[..l] + mid + bs[r..]) == Live(bs) - Live(bs[l..r]) + Live(mid)
  {
    var cs := bs[..l] + mid + bs[r..];
    forall b | b in bs[..l] || b in bs[r..] ensures b !in bs[l..r] {
      var k :| 0 <= k < |bs| && (k < l || r <= k) && bs[k] == b;
      if b in bs[l..r] {
        var j :| l <= j < r && bs[j] == b;
        if k < j { Apart(bs, k, j, lo, hi, least); } else { Apart(bs, j, k, lo, hi, least); }
        TilesAt(bs, j, lo, hi, least);
        assert false;
      }
    }
    assert bs == bs[..l] + bs[l..r] + bs[r..];
  }

  /** A chain of one block. */
  lemma OneBlock(b: Block, h: nat, least: nat)
    requires 0 < least <= b.span
    ensures Tiles([b], b.start, b.End(), least) && NoFreeNeighbours([b])
    ensures Live([b]) == if b.used then {b} else {}
    ensures UsedSpan([b]) == (if b.used then b.span else 0) && FreePayload([b], h) == if b.used then 0 else b.span - h
  {
    assert [b][1..] == [];
  }

  /** A chain of a used block and a free one behind it. */
  lemma TwoBlocks(b: Block, c: Block, h: nat, least: nat)
    requires 0 < least <= b.span && least <= c.span && c.start == b.End() && b.used && !c.used
    ensures Tiles([b, c], b.start, c.End(), least) && NoFreeNeighbours([b, c])
    ensures Live([b, c]) == {b} && UsedSpan([b, c]) == b.span && FreePayload([b, c], h) == c.span - h
  {
    var s := [b, c];
    OneBlock(c, h, least);
    assert s[1..] == [c];
    assert UsedSpan(s) == b.span + UsedSpan(s[1..]) && FreePayload(s, h) == FreePayload(s[1..], h);
    assert s[0] == b && s[1] == c;
  }

  lemma GrantedIsNew(bs: seq<Block>, i: nat, g: Block, lo: nat, hi: nat, least: nat)
    requires Tiles(bs, lo, hi, least) && i < |bs| && !bs[i].used && g.start == bs[i].start && 0 < g.span
    ensures g !in Live(bs)
  {
    if g in Live(bs) {
      var k :| 0 <= k < |bs| && bs[k] == g;
      TilesAt(bs, i, lo, hi, least);
      if k < i { Apart(bs, k, i, lo, hi, least); }
      if k > i { Apart(bs, i, k, lo, hi, least); }
      assert false;
    }
  }

  lemma AllocAtChain(bs: seq<Block>, i: nat, need: nat, h: nat, cut: nat, lo: nat, hi: nat, least: nat)
    requires Canonical(bs, lo, hi, least) && i < |bs| && !bs[i].used
    requires least <= h + need <= bs[i].span && least <= cut
    ensures var cs := AllocAt(bs, i, need, h, cut); var g := Granted(bs[i], need, h, cut);
            && Canonical(cs, lo, hi, least)
            && Live(cs) == Live(bs) + {g} && g !in Live(bs)
            && UsedSpan(cs) == UsedSpan(bs) + g.span
            && FreePayload(cs, h) == FreePayload(bs, h) - (if g.span < bs[i].span then g.span else g.span - h)
  {
    hide Tiles, Live, UsedSpan, FreePayload;
    var b, g := bs[i], Granted(bs[i], need, h, cut);
    var mid := if b.span >= h + need + cut then [g, Rest(b.start + h + need, b.End())] else [g];
    TilesAt(bs, i, lo, hi, least);
    assert bs[i..i + 1] == [b];
    OneBlock(b, h, least);
    if |mid| == 2 { TwoBlocks(mid[0], mid[1], h, least); } else { OneBlock(g, h, least); }
    SpliceCanonical(bs, i, i + 1, mid, lo, hi, least);
    SpliceSums(bs, i, i + 1, mid, h);
    SpliceLive(bs, i, i + 1, mid, lo, hi, least);
    GrantedIsNew(bs, i, g, lo, hi, least);
  }

  /** The stretch that freeing block `i` merges holds one live block. */
  lemma MergedStretch(bs: seq<Block>, i: nat, h: nat)
    requires i < |bs| && bs[i].used
    ensures var l, r := MergeFrom(bs, i), MergeTo(bs, i);
            && Live(bs[l..r + 1]) == {bs[i]} && UsedSpan(bs[l..r + 1]) == bs[i].span
            && FreePayload(bs[l..r + 1], h)
               == (if l < i then bs[l].span - h else 0) + (if i < r then bs[r].span - h else 0)
  {
    var l, r := MergeFrom(bs, i), MergeTo(bs, i);
    var left, right := if l < i then [bs[l]] else [], if i < r then [bs[r]] else [];
    assert bs[l..r + 1] == left + [bs[i]] + right;
    SumsJoin(left + [bs[i]], right, h, 0);
    SumsJoin(left, [bs[i]], h, 0);
  }

  lemma FreeAtChain(bs: seq<Block>, i: nat, h: nat, lo: nat, hi: nat, least: nat)
    requires Canonical(bs, lo, hi, least) && i < |bs| && bs[i].used
    ensures var cs := FreeAt(bs, i); var l, r := MergeFrom(bs, i), MergeTo(bs, i);
            && Canonical(cs, lo, hi, least)
            && Live(cs) == Live(bs) - {bs[i]}
            && UsedSpan(cs) == UsedSpan(bs) - bs[i].span
            && FreePayload(cs, h)
               == FreePayload(bs, h) + bs[i].span - h + (if l < i then h else 0) + (if i < r then h else 0)
  {
    hide Tiles, Live, UsedSpan, FreePayload;
    var l, r := MergeFrom(bs, i), MergeTo(bs, i);
    TilesAt(bs, l, lo, hi, least);
    TilesAt(bs, i, lo, hi, least);
    TilesAt(bs, r, lo, hi, least);
    var m := Block(bs[l].start, bs[r].End() - bs[l].start, false);
    OneBlock(m, h, least);
    assert r + 1 < |bs| ==> bs[r + 1].used;
    assert l > 0 ==> bs[l - 1].used;
    MergedStretch(bs, i, h);
    SpliceCanonical(bs, l, r + 1, [m], lo, hi, least);
    SpliceSums(bs, l, r + 1, [m], h);
    SpliceLive(bs, l, r + 1, [m], lo, hi, least);
  }

  lemma ResizeAtChain(bs: seq<Block>, i: nat, need: nat, h: nat, lo: nat, hi: nat, least: nat)
    requires Canonical(bs, lo, hi, least) && i < |bs| && bs[i].used
    requires least <= h + need && bs[i].start + h + need + least <= bs[MergeTo(bs, i)].End()
    ensures var cs := ResizeAt(bs, i, need, h); var r := MergeTo(bs, i);
            && Canonical(cs, lo, hi, least)
            && Live(cs) == Live(bs) - {bs[i]} + {Block(bs[i].start, h + need, true)}
            && UsedSpan(cs) == UsedSpan(bs) - bs[i].span + h + need
            && FreePayload(cs, h) == FreePayload(bs, h) + bs[i].span - (h + need) - (if r == i then h else 0)
  {
    hide Tiles, Live, UsedSpan, FreePayload;
    var r := MergeTo(bs, i);
    var b := Block(bs[i].start, h + need, true);
    var mid := [b, Rest(b.End(), bs[r].End())];
    TilesAt(bs, i, lo, hi, least);
    TilesAt(bs, r, lo, hi, least);
    TwoBlocks(mid[0], mid[1], h, least);
    assert r + 1 < |bs| ==> bs[r + 1].used;
    SpliceCanonical(bs, i, r + 1, mid, lo, hi, least);
    SpliceSums(bs, i, r + 1, mid, h);
    SpliceLive(bs, i, r + 1, mid, lo, hi, least);
    if i < r {
      assert bs[i..r + 1] == [bs[i], bs[r]];
      TwoBlocks(bs[i], bs[r], h, least);
    } else {
      assert bs[i..r + 1] == [bs[i]];
      OneBlock(bs[i], h, least);
    }
  }

  // ----- Freeing undoes allocating

  /** Freeing the block just allocated gives back the very chain from before. */
  lemma AllocThenFree(bs: seq<Block>, i: nat, need: nat, h: nat, cut: nat, lo: nat, hi: nat, least: nat)
    requires Canonical(bs, lo, hi, least) && i < |bs| && !bs[i].used
    requires least <= h + need <= bs[i].span && least <= cut
    ensures FreeAt(AllocAt(bs, i, need, h, cut), i) == bs
  {
    var cs := AllocAt(bs, i, need, h, cut);
    AllocAtChain(bs, i, need, h, cut, lo, hi, least);
    assert cs[i] == Granted(bs[i], need, h, cut);
    FreeAtChain(cs, i, h, lo, hi, least);
    CanonicalUnique(FreeAt(cs, i), bs, lo, hi, least);
  }

  ghost predicate LiveAt(bs: seq<Block>, p: nat) {
    exists b :: b in Live(bs) && b.start == p
  }

  /** The index of the live block that starts at `p`. */
  ghost function IndexOf(bs: seq<Block>, p: nat): (i: nat)
    requires LiveAt(bs, p)
    ensures i < |bs| && bs[i].start == p && bs[i].used
  {
    var b :| b in Live(bs) && b.start == p;
    var i :| 0 <= i < |bs| && bs[i] == b;
    i
  }

  /** `order` lists the addresses of the live blocks, each once. */
  ghost predicate ListsLive(bs: seq<Block>, order: seq<nat>) {
    && (forall k :: 0 <= k < |order| ==> LiveAt(bs, order[k]))
    && (forall j, k :: 0 <= j < k < |order| ==> order[j] != order[k])
    && (forall b :: b in Live(bs) ==> b.start in order)
  }

  /** Freeing the blocks that start at the addresses in `order`, one after the other. */
  ghost function FreeAll(bs: seq<Block>, order: seq<nat>): seq<Block>
    decreases |order|
  {
    if order == [] || !LiveAt(bs, order[0]) then bs
    else FreeAll(FreeAt(bs, IndexOf(bs, order[0])), order[1..])
  }

  lemma ListsRest(bs: seq<Block>, order: seq<nat>, lo: nat, hi: nat, least: nat)
    requires Canonical(bs, lo, hi, least) && ListsLive(bs, order) && order != []
    ensures ListsLive(FreeAt(bs, IndexOf(bs, order[0])), order[1..])
  {
    var i := IndexOf(bs, order[0]);
    var cs, rest := FreeAt(bs, i), order[1..];
    FreeAtChain(bs, i, 0, lo, hi, least);
    StartsDiffer(bs, lo, hi, least);
    forall k | 0 <= k < |rest| ensures LiveAt(cs, rest[k]) {
      assert rest[k] == order[k + 1] && LiveAt(bs, order[k + 1]);
      var c :| c in Live(bs) && c.start == order[k + 1];
      assert c in Live(cs);
    }
    forall b | b in Live(cs) ensures b.start in rest {
      assert b in Live(bs) && bs[i] in Live(bs) && b != bs[i];
      assert order == [order[0]] + rest;
    }
  }

  /** Whatever the order in which the live blocks are freed, one free block covering the heap is left. */
  lemma {:induction false} FreeAllInAnyOrder(bs: seq<Block>, order: seq<nat>, lo: nat, hi: nat, least: nat)
    requires Canonical(bs, lo, hi, least) && ListsLive(bs, order) && 0 < least && lo + least <= hi
    ensures FreeAll(bs, order) == [Block(lo, hi - lo, false)]
    decreases |order|
  {
    if order == [] {
      var one := Block(lo, hi - lo, false);
      assert [one][1..] == [];
      assert Live(bs) == {} == Live([one]);
      CanonicalUnique(bs, [one], lo, hi, least);
    } else {
      assert LiveAt(bs, order[0]);
      var i := IndexOf(bs, order[0]);
      FreeAtChain(bs, i, 0, lo, hi, least);
      ListsRest(bs, order, lo, hi, least);
      FreeAllInAnyOrder(FreeAt(bs, i), order[1..], lo, hi, least);
    }
  }

  lemma StartsDiffer(bs: seq<Block>, lo: nat, hi: nat, least: nat)
    requires Tiles(bs, lo, hi, least)
    ensures forall b, c :: b in Live(bs) && c in Live(bs) && b.start == c.start ==> b == c
  {
    forall b, c | b in Live(bs) && c in Live(bs) && b.start == c.start ensures b == c {
      var i :| 0 <= i < |bs| && bs[i] == b;
      var j :| 0 <= j < |bs| && bs[j] == c;
      TilesAt(bs, i, lo, hi, least);
      TilesAt(bs, j, lo, hi, least);
      if i < j { Apart(bs, i, j, lo, hi, least); }
      if j < i { Apart(bs, j, i, lo, hi, least); }
    }
  }
}
