/**
 Block chains of the two heap allocators, as values. A chain tiles an address range with used and free
 blocks; it is canonical when no two neighbours are free. A canonical chain is determined by its used
 blocks, which makes "the set of live blocks" a complete description of an allocator's bookkeeping.
 */
module Tiling {

  /** `span` counts the header and the payload. */
  datatype Block = Block(start: nat, span: nat, used: bool) {
    function End(): nat { start + span }
  }

  /** `bs` covers `lo..hi` without gap or overlap, every block spanning at least `least` > 0 bytes. */
  predicate Tiles(bs: seq<Block>, lo: nat, hi: nat, least: nat)
    decreases |bs|
  {
    if bs == [] then lo == hi
    else bs[0].start == lo && 0 < least <= bs[0].span && Tiles(bs[1..], bs[0].End(), hi, least)
  }

  ghost predicate NoFreeNeighbours(bs: seq<Block>) {
    forall i, j :: 0 <= i && j == i + 1 && j < |bs| ==> bs[i].used || bs[j].used
  }

  ghost predicate Canonical(bs: seq<Block>, lo: nat, hi: nat, least: nat) {
    Tiles(bs, lo, hi, least) && NoFreeNeighbours(bs)
  }

  ghost function Live(bs: seq<Block>): set<Block> {
    set b | b in bs && b.used
  }

  /** The address just before which the chain's block `i` starts; `hi` after the last block. */
  function StartAt(bs: seq<Block>, i: nat, hi: nat): nat
    requires i <= |bs|
  {
    if i < |bs| then bs[i].start else hi
  }

  // ----- Cutting and joining chains

  lemma {:induction false} TilesSplit(bs: seq<Block>, i: nat, lo: nat, hi: nat, least: nat)
    requires Tiles(bs, lo, hi, least) && i <= |bs|
    ensures Tiles(bs[..i], lo, StartAt(bs, i, hi), least) && Tiles(bs[i..], StartAt(bs, i, hi), hi, least)
    ensures lo <= StartAt(bs, i, hi) <= hi
    decreases |bs|
  {
    if bs != [] {
      var rest := bs[1..];
      if i == 0 {
        TilesSplit(rest, |rest|, bs[0].End(), hi, least);
        assert bs[0..] == bs;
      } else {
        TilesSplit(rest, i - 1, bs[0].End(), hi, least);
        assert bs[..i][1..] == rest[..i - 1];
        assert bs[i..] == rest[i - 1..];
      }
    }
  }

  lemma {:induction false} TilesJoin(a: seq<Block>, b: seq<Block>, lo: nat, mid: nat, hi: nat, least: nat)
    requires Tiles(a, lo, mid, least) && Tiles(b, mid, hi, least)
    ensures Tiles(a + b, lo, hi, least)
    decreases |a|
  {
    if a == [] {
      assert a + b == b;
    } else {
      TilesJoin(a[1..], b, a[0].End(), mid, hi, least);
      assert (a + b)[1..] == a[1..] + b;
    }
  }

  /** Block `i` follows on its predecessors and lies inside the range. */
  lemma TilesAt(bs: seq<Block>, i: nat, lo: nat, hi: nat, least: nat)
    requires Tiles(bs, lo, hi, least) && i < |bs|
    ensures lo <= bs[i].start && 0 < least <= bs[i].span && bs[i].End() <= hi
    ensures bs[i].End() == StartAt(bs, i + 1, hi)
    ensures i == 0 ==> bs[i].start == lo
  {
    TilesSplit(bs, i, lo, hi, least);
    var rest := bs[i..];
    assert rest[0] == bs[i];
    TilesSplit(rest, 1, bs[i].start, hi, least);
    assert i + 1 < |bs| ==> rest[1] == bs[i + 1];
  }

  /** Different blocks of a chain never overlap. */
  lemma Apart(bs: seq<Block>, i: nat, j: nat, lo: nat, hi: nat, least: nat)
    requires Tiles(bs, lo, hi, least) && i < j < |bs|
    ensures bs[i].End() <= bs[j].start
  {
    TilesAt(bs, i, lo, hi, least);
    TilesSplit(bs, i + 1, lo, hi, least);
    var rest := bs[i + 1..];
    assert rest[0] == bs[i + 1] && rest[j - i - 1] == bs[j];
    TilesAt(rest, j - i - 1, bs[i + 1].start, hi, least);
  }

  /** Between two chains of the same range: no header of either, nor of the block that closes the range, shares an
      address with the payload of a block that is in both. */
  lemma HeadersMissPayloads(bs: seq<Block>, cs: seq<Block>, b: Block, c: Block, h: nat, x: nat, lo: nat, hi: nat,
                            least: nat)
    requires Tiles(bs, lo, hi, least) && Tiles(cs, lo, hi, least) && b in bs && b in cs && (c in bs || c in cs)
    requires b.start + h <= x < b.End()
    ensures !(c.start <= x < c.start + h) && !(hi <= x < hi + h)
  {
    if c in bs { HeaderMisses(bs, b, c, h, x, lo, hi, least); } else { HeaderMisses(cs, b, c, h, x, lo, hi, least); }
  }

  lemma HeaderMisses(bs: seq<Block>, b: Block, c: Block, h: nat, x: nat, lo: nat, hi: nat, least: nat)
    requires Tiles(bs, lo, hi, least) && b in bs && c in bs && b.start + h <= x < b.End()
    ensures !(c.start <= x < c.start + h) && !(hi <= x < hi + h)
  {
    var i :| 0 <= i < |bs| && bs[i] == b;
    var j :| 0 <= j < |bs| && bs[j] == c;
    TilesAt(bs, i, lo, hi, least);
    if i < j { Apart(bs, i, j, lo, hi, least); }
    if j < i { Apart(bs, j, i, lo, hi, least); }
  }

  /** Replacing a stretch of blocks by others that tile the same stretch. */
  lemma Splice(bs: seq<Block>, l: nat, r: nat, mid: seq<Block>, lo: nat, hi: nat, least: nat)
    requires Tiles(bs, lo, hi, least) && l <= r <= |bs|
    requires Tiles(mid, StartAt(bs, l, hi), StartAt(bs, r, hi), least)
    ensures Tiles(bs[..l] + mid + bs[r..], lo, hi, least)
  {
    TilesSplit(bs, l, lo, hi, least);
    TilesSplit(bs, r, lo, hi, least);
    TilesJoin(mid, bs[r..], StartAt(bs, l, hi), StartAt(bs, r, hi), hi, least);
    TilesJoin(bs[..l], mid + bs[r..], lo, StartAt(bs, l, hi), hi, least);
    assert bs[..l] + mid + bs[r..] == bs[..l] + (mid + bs[r..]);
  }

  // ----- The live blocks determine the chain

  lemma {:induction false} CanonicalUnique(bs: seq<Block>, cs: seq<Block>, lo: nat, hi: nat, least: nat)
    requires Canonical(bs, lo, hi, least) && Canonical(cs, lo, hi, least)
    requires Live(bs) == Live(cs)
    ensures bs == cs
    decreases |bs|
  {
    if bs == [] || cs == [] {
      TilesSplit(bs, 0, lo, hi, least);
      TilesSplit(cs, 0, lo, hi, least);
      assert bs[0..] == bs && cs[0..] == cs;
      if bs != [] { TilesAt(bs, 0, lo, hi, least); }
      if cs != [] { TilesAt(cs, 0, lo, hi, least); }
    } else {
      FirstAgrees(bs, cs, lo, hi, least);
      FirstAgrees(cs, bs, lo, hi, least);
      assert bs[0] == cs[0];
      RestLive(bs, lo, hi, least);
      RestLive(cs, lo, hi, least);
      CanonicalUnique(bs[1..], cs[1..], bs[0].End(), hi, least);
      assert bs == [bs[0]] + bs[1..] && cs == [cs[0]] + cs[1..];
    }
  }

  lemma RestLive(bs: seq<Block>, lo: nat, hi: nat, least: nat)
    requires Tiles(bs, lo, hi, least) && bs != []
    ensures Live(bs[1..]) == Live(bs) - {bs[0]}
  {
    forall i | 0 < i < |bs| ensures bs[i] != bs[0] {
      Apart(bs, 0, i, lo, hi, least);
    }
    assert forall b :: b in bs[1..] ==> exists i :: 0 < i < |bs| && bs[i] == b;
    assert bs == [bs[0]] + bs[1..];
  }

  /** Two canonical chains with the same live blocks agree on the use of their first block, and if it is
      free then neither ends before the other. */
  lemma FirstAgrees(bs: seq<Block>, cs: seq<Block>, lo: nat, hi: nat, least: nat)
    requires Canonical(bs, lo, hi, least) && Canonical(cs, lo, hi, least)
    requires Live(bs) == Live(cs) && bs != [] && cs != []
    ensures bs[0].used ==> bs[0] == cs[0]
    ensures !bs[0].used && !cs[0].used ==> bs[0].span >= cs[0].span
  {
    if bs[0].used {
      assert bs[0] in Live(bs);
      var k :| 0 <= k < |cs| && cs[k] == bs[0];
      if k > 0 { Apart(cs, 0, k, lo, hi, least); }
    } else if !cs[0].used && bs[0].span < cs[0].span {
      TilesAt(bs, 0, lo, hi, least);
      TilesAt(cs, 0, lo, hi, least);
      assert bs[1].used && bs[1] in Live(bs);
      var k :| 0 <= k < |cs| && cs[k] == bs[1];
      TilesAt(bs, 1, lo, hi, least);
      if k > 0 { Apart(cs, 0, k, lo, hi, least); }
    }
  }

  // ----- Sums over a chain

  function UsedSpan(bs: seq<Block>): nat {
    if bs == [] then 0 else (if bs[0].used then bs[0].span else 0) + UsedSpan(bs[1..])
  }

  /** Payload bytes in free blocks, for headers of `h` bytes. */
  function FreePayload(bs: seq<Block>, h: nat): int {
    if bs == [] then 0 else (if bs[0].used then 0 else bs[0].span - h) + FreePayload(bs[1..], h)
  }

  function FreeCount(bs: seq<Block>): nat {
    if bs == [] then 0 else (if bs[0].used then 0 else 1) + FreeCount(bs[1..])
  }

  /** No byte of the range is lost: it is in a used block, free payload, or the header of a free block. */
  lemma {:induction false} Conserved(bs: seq<Block>, h: nat, lo: nat, hi: nat, least: nat)
    requires Tiles(bs, lo, hi, least)
    ensures UsedSpan(bs) + FreePayload(bs, h) + h * FreeCount(bs) == hi - lo
    decreases |bs|
  {
    if bs != [] { Conserved(bs[1..], h, bs[0].End(), hi, least); }
  }

  /** Where the first free block starts, or `hi`. */
  function LowestFree(bs: seq<Block>, hi: nat): nat {
    if bs == [] then hi else if !bs[0].used then bs[0].start else LowestFree(bs[1..], hi)
  }

  lemma {:induction false} SumsJoin(a: seq<Block>, b: seq<Block>, h: nat, hi: nat)
    ensures UsedSpan(a + b) == UsedSpan(a) + UsedSpan(b)
    ensures FreePayload(a + b, h) == FreePayload(a, h) + FreePayload(b, h)
    ensures LowestFree(a + b, hi) == LowestFree(a, LowestFree(b, hi))
  {
    if a == [] {
      assert a + b == b;
    } else {
      SumsJoin(a[1..], b, h, hi);
      assert (a + b)[1..] == a[1..] + b;
    }
  }
}
