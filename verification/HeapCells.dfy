/**
 Block headers of rt-thread/src/mem.c inside the heap memory itself. The memory is a row of byte cells;
 a header field lies whole in the cell of its first byte (magic at 0, used at 2, next at 4, prev at 8).
 */
module HeapCells {
  import opened Tiling

  const HDR: nat := 16
  const MAGIC := 0x1ea0

  predicate Header(m: seq<int>, p: nat, used: bool, next: int, prev: int) {
    && p + HDR <= |m|
    && m[p] == MAGIC && m[p + 2] == (if used then 1 else 0) && m[p + 4] == next && m[p + 8] == prev
  }

  /** The back-link of block `i` of a chain whose first block points back to `first`. */
  function PrevOf(bs: seq<Block>, i: nat, first: nat): nat
    requires i <= |bs|
  {
    if i == 0 then first else bs[i - 1].start
  }

  /** Every block of the chain has its header in memory, with both links right. */
  ghost predicate Linked(m: seq<int>, bs: seq<Block>, first: nat) {
    forall i :: 0 <= i < |bs| ==> Header(m, bs[i].start, bs[i].used, bs[i].End(), PrevOf(bs, i, first))
  }

  /** Only cells in `from..to`, and the back-link of the header at `to`, were written. */
  ghost predicate WritesOnly(m: seq<int>, m': seq<int>, from: nat, to: nat) {
    |m'| == |m| && forall c :: 0 <= c < |m| && !(from <= c < to) && c != to + 8 ==> m'[c] == m[c]
  }

  lemma WritesNothing(m: seq<int>, from: nat, to: nat)
    ensures WritesOnly(m, m, from, to)
  {
  }

  /** The payload of block `b` is the same in both memories. */
  ghost predicate Kept(m: seq<int>, m': seq<int>, b: Block) {
    forall c :: b.start + HDR <= c < b.End() && c < |m| && c < |m'| ==> m'[c] == m[c]
  }

  /** The live blocks other than `except` have kept their payload. */
  ghost predicate LiveKept(m: seq<int>, m': seq<int>, bs: seq<Block>, except: set<Block>) {
    forall b :: b in Live(bs) && b !in except ==> Kept(m, m', b)
  }

  /** A stretch `l..r` of the chain replaced by `mid`, with only that stretch written. */
  lemma LinkedSplice(m: seq<int>, m': seq<int>, bs: seq<Block>, l: nat, r: nat, mid: seq<Block>, hi: nat, least: nat)
    requires Tiles(bs, 0, hi, least) && HDR <= least && Linked(m, bs, 0) && l < r <= |bs| && mid != []
    requires WritesOnly(m, m', bs[l].start, StartAt(bs, r, hi)) && hi + HDR <= |m|
    requires Linked(m', mid, PrevOf(bs, l, 0))
    requires r < |bs| ==> bs[r].start + 8 < |m| && m'[bs[r].start + 8] == mid[|mid| - 1].start
    ensures Linked(m', bs[..l] + mid + bs[r..], 0)
  {
    hide Tiles, WritesOnly, Header;
    var cs := bs[..l] + mid + bs[r..];
    forall i | 0 <= i < |cs| ensures Header(m', cs[i].start, cs[i].used, cs[i].End(), PrevOf(cs, i, 0)) {
      if l <= i < l + |mid| {
        assert cs[i] == mid[i - l] && PrevOf(cs, i, 0) == PrevOf(mid, i - l, PrevOf(bs, l, 0));
      } else {
        var k := if i < l then i else i - l - |mid| + r;
        HeaderOutside(m, m', bs, l, r, k, hi, least);
        assert cs[i] == bs[k];
        assert PrevOf(cs, i, 0) == if k == r then mid[|mid| - 1].start else PrevOf(bs, k, 0);
      }
    }
  }

  /** Headers outside the written stretch are untouched, but for the back-link right behind it. */
  lemma HeaderOutside(m: seq<int>, m': seq<int>, bs: seq<Block>, l: nat, r: nat, k: nat, hi: nat, least: nat)
    requires Tiles(bs, 0, hi, least) && HDR <= least && Linked(m, bs, 0) && l < r <= |bs| && k < |bs|
      && (k < l || r <= k)
    requires WritesOnly(m, m', bs[l].start, StartAt(bs, r, hi)) && hi + HDR <= |m|
    ensures bs[k].start + HDR <= |m|
    ensures Header(m', bs[k].start, bs[k].used, bs[k].End(), if k == r then m'[bs[k].start + 8] else PrevOf(bs, k, 0))
  {
    TilesAt(bs, k, 0, hi, least);
    assert Header(m, bs[k].start, bs[k].used, bs[k].End(), PrevOf(bs, k, 0));
    if k < l {
      Apart(bs, k, l, 0, hi, least);
      TilesSplit(bs, r, 0, hi, least);
      if r < |bs| { Apart(bs, k, r, 0, hi, least); }
    } else {
      Apart(bs, l, k, 0, hi, least);
      if r < k {
        Apart(bs, r, k, 0, hi, least);
        TilesAt(bs, r, 0, hi, least);
      }
    }
  }

  /** The payload of a block outside the written stretch is untouched. */
  lemma OutsideKept(m: seq<int>, m': seq<int>, bs: seq<Block>, l: nat, r: nat, k: nat, hi: nat, least: nat)
    requires Tiles(bs, 0, hi, least) && HDR <= least && l < r <= |bs| && k < |bs| && (k < l || r <= k)
    requires WritesOnly(m, m', bs[l].start, StartAt(bs, r, hi)) && hi + HDR <= |m|
    ensures Kept(m, m', bs[k])
  {
    TilesAt(bs, k, 0, hi, least);
    if k < l {
      Apart(bs, k, l, 0, hi, least);
      if r < |bs| { Apart(bs, k, r, 0, hi, least); }
    } else if r < k {
      Apart(bs, r, k, 0, hi, least);
      TilesAt(bs, r, 0, hi, least);
    }
  }

  /** Writing a stretch that holds at most the live blocks in `except` keeps all other payloads. */
  lemma StretchKeepsLive(m: seq<int>, m': seq<int>, bs: seq<Block>, l: nat, r: nat, except: set<Block>, hi: nat,
                         least: nat)
    requires Tiles(bs, 0, hi, least) && HDR <= least && l < r <= |bs|
    requires WritesOnly(m, m', bs[l].start, StartAt(bs, r, hi)) && hi + HDR <= |m|
    requires forall k :: l <= k < r && bs[k].used ==> bs[k] in except
    ensures LiveKept(m, m', bs, except)
  {
    forall b | b in Live(bs) && b !in except ensures Kept(m, m', b) {
      var k :| 0 <= k < |bs| && bs[k] == b;
      OutsideKept(m, m', bs, l, r, k, hi, least);
    }
  }

  // ----- Searching a chain

  /** Block `b` is free with at least `need` bytes of payload. */
  predicate Fits(b: Block, need: nat) {
    !b.used && b.span >= HDR + need
  }

  /** The lowest block that fits, or the length of the chain. */
  function FirstFit(bs: seq<Block>, need: nat): (i: nat)
    ensures i <= |bs| && (i < |bs| ==> Fits(bs[i], need))
    ensures forall j :: 0 <= j < i ==> !Fits(bs[j], need)
  {
    if bs == [] || Fits(bs[0], need) then 0 else
      var i := FirstFit(bs[1..], need);
      assert forall j :: 0 < j < i + 1 ==> bs[j] == bs[1..][j - 1];
      i + 1
  }

  lemma {:induction false} LowestFreeAt(bs: seq<Block>, k: nat, hi: nat)
    requires k <= |bs| && (forall j :: 0 <= j < k ==> bs[j].used) && (k < |bs| ==> !bs[k].used)
    ensures LowestFree(bs, hi) == StartAt(bs, k, hi)
  {
    if k > 0 {
      assert forall j :: 0 <= j < k - 1 ==> bs[1..][j] == bs[j + 1];
      LowestFreeAt(bs[1..], k - 1, hi);
    }
  }

  /** The index of the lowest free block. */
  ghost function LowestIndex(bs: seq<Block>): (k: nat)
    ensures k <= |bs| && (forall j :: 0 <= j < k ==> bs[j].used) && (k < |bs| ==> !bs[k].used)
  {
    if bs == [] || !bs[0].used then 0 else
      var k := LowestIndex(bs[1..]);
      assert forall j :: 0 < j < k + 1 ==> bs[j] == bs[1..][j - 1];
      k + 1
  }
}
