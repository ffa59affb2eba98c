/** Copying in memory, as rt-thread/src/kservice.c does it. */
module Memory {

  /** The first `n` cells behind `p'` hold what the first `n` cells behind `p` held. */
  ghost predicate Moved(m: seq<int>, p: nat, m': seq<int>, p': nat, n: nat) {
    forall c :: p' <= c < p' + n && c < |m'| && c - p' + p < |m| ==> m'[c] == m[c - p' + p]
  }

  /** rt_memcpy: long words, four at a time, while both pointers are word-aligned; then bytes. */
  method MemCopy(mem: array<int>, dst: nat, src: nat, count: nat)
    requires dst + count <= mem.Length && src + count <= mem.Length
    requires dst + count <= src || src + count <= dst
    modifies mem
    ensures Moved(old(mem[..]), src, mem[..], dst, count)
    ensures forall c :: 0 <= c < mem.Length && !(dst <= c < dst + count) ==> mem[c] == old(mem[c])
  {
    var i := 0;
    if count >= 16 && dst % 4 == 0 && src % 4 == 0 {
      while count - i >= 16
        invariant i <= count
        invariant forall c :: dst <= c < dst + i ==> mem[c] == old(mem[c - dst + src])
        invariant forall c :: 0 <= c < mem.Length && !(dst <= c < dst + i) ==> mem[c] == old(mem[c])
      {
        CopyQuad(mem, dst + i, src + i);
        i := i + 16;
      }
      while count - i >= 4
        invariant i <= count
        invariant forall c :: dst <= c < dst + i ==> mem[c] == old(mem[c - dst + src])
        invariant forall c :: 0 <= c < mem.Length && !(dst <= c < dst + i) ==> mem[c] == old(mem[c])
      {
        CopyWord(mem, dst + i, src + i);
        i := i + 4;
      }
    }
    while i < count
      invariant i <= count
      invariant forall c :: dst <= c < dst + i ==> mem[c] == old(mem[c - dst + src])
      invariant forall c :: 0 <= c < mem.Length && !(dst <= c < dst + i) ==> mem[c] == old(mem[c])
    {
      mem[dst + i] := mem[src + i];
      i := i + 1;
    }
  }

  /** One turn of the unrolled loop: four words. */
  method CopyQuad(mem: array<int>, d: nat, s: nat)
    requires d + 16 <= mem.Length && s + 16 <= mem.Length && (d + 16 <= s || s + 16 <= d)
    modifies mem
    ensures forall c :: d <= c < d + 16 ==> mem[c] == old(mem[c - d + s])
    ensures forall c :: 0 <= c < mem.Length && !(d <= c < d + 16) ==> mem[c] == old(mem[c])
  {
    CopyWord(mem, d, s);
    CopyWord(mem, d + 4, s + 4);
    CopyWord(mem, d + 8, s + 8);
    CopyWord(mem, d + 12, s + 12);
  }

  method CopyWord(mem: array<int>, d: nat, s: nat)
    requires d + 4 <= mem.Length && s + 4 <= mem.Length && (d + 4 <= s || s + 4 <= d)
    modifies mem
    ensures forall c :: d <= c < d + 4 ==> mem[c] == old(mem[c - d + s])
    ensures forall c :: 0 <= c < mem.Length && !(d <= c < d + 4) ==> mem[c] == old(mem[c])
  {
    mem[d], mem[d + 1], mem[d + 2], mem[d + 3] := mem[s], mem[s + 1], mem[s + 2], mem[s + 3];
  }
}
