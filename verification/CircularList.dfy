/**
 Circular doubly linked lists, with links kept in one map per field: the lists of
 rt-thread/include/rtservice.h, and the block ring and the free list of rt-thread/src/memheap.c.
 A list with head `h` refines the sequence of its other nodes.
 */
module CircularList {

  import opened WaitList

  /** The node `k` steps behind the head. */
  function At(h: nat, s: seq<nat>, k: int): nat {
    if 0 < k <= |s| then s[k - 1] else h
  }

  /** `a` is followed by `b`, in both directions. */
  predicate Link(next: map<nat, nat>, prev: map<nat, nat>, a: nat, b: nat) {
    a in next && next[a] == b && b in prev && prev[b] == a
  }

  /** Following `next` from `h` visits exactly `s` and comes back; `prev` undoes `next`. */
  ghost predicate Ring(next: map<nat, nat>, prev: map<nat, nat>, h: nat, s: seq<nat>) {
    && Distinct(s) && h !in s
    && (forall k :: 0 <= k <= |s| ==> Link(next, prev, At(h, s, k), At(h, s, k + 1)))
  }

  function Drop(s: seq<nat>, k: nat): seq<nat>
    requires k < |s|
  {
    s[..k] + s[k + 1..]
  }

  /** Nodes of a ring are pairwise different. */
  lemma AtDiffer(h: nat, s: seq<nat>, j: nat, k: nat)
    requires Distinct(s) && h !in s && j < k <= |s| + 1 && (k == |s| + 1 ==> 0 < j)
    ensures At(h, s, j) != At(h, s, k)
  {
    assert k <= |s| ==> s[k - 1] in s;
    assert j > 0 ==> s[j - 1] in s;
  }

  lemma PutAt(h: nat, s: seq<nat>, k: nat, n: nat)
    requires k <= |s|
    ensures forall j :: At(h, InsertAt(s, k, n), j)
                        == if j <= k then At(h, s, j) else if j == k + 1 then n else At(h, s, j - 1)
  {
  }

  lemma DropAt(h: nat, s: seq<nat>, k: nat)
    requires k < |s|
    ensures forall j :: At(h, Drop(s, k), j) == if j <= k then At(h, s, j) else At(h, s, j + 1)
  {
  }

  /** `n` linked in behind the node `k` steps from the head. */
  lemma InsertAfter(next: map<nat, nat>, prev: map<nat, nat>, h: nat, s: seq<nat>, k: nat, n: nat)
    requires Ring(next, prev, h, s) && k <= |s| && n != h && n !in s
    ensures var x, y := At(h, s, k), At(h, s, k + 1);
            Ring(next[n := y][x := n], prev[y := n][n := x], h, InsertAt(s, k, n))
  {
    var x, y, s' := At(h, s, k), At(h, s, k + 1), InsertAt(s, k, n);
    var next', prev' := next[n := y][x := n], prev[y := n][n := x];
    PutAt(h, s, k, n);
    InsertAtDistinct(s, k, n);
    forall j | 0 <= j <= |s'| ensures Link(next', prev', At(h, s', j), At(h, s', j + 1)) {
      if j < k {
        AtDiffer(h, s, j, k);
        AtDiffer(h, s, j + 1, k + 1);
        assert Link(next, prev, At(h, s, j), At(h, s, j + 1));
      } else if j > k + 1 {
        AtDiffer(h, s, k, j - 1);
        AtDiffer(h, s, k + 1, j);
        assert Link(next, prev, At(h, s, j - 1), At(h, s, j));
      }
    }
  }

  /** The node `k + 1` steps from the head linked out. */
  lemma Remove(next: map<nat, nat>, prev: map<nat, nat>, h: nat, s: seq<nat>, k: nat)
    requires Ring(next, prev, h, s) && k < |s|
    ensures var x, y := At(h, s, k), At(h, s, k + 2);
            Link(next, prev, x, s[k]) && Link(next, prev, s[k], y) && Ring(next[x := y], prev[y := x], h, Drop(s, k))
  {
    var x, y, s' := At(h, s, k), At(h, s, k + 2), Drop(s, k);
    var next', prev' := next[x := y], prev[y := x];
    DropAt(h, s, k);
    assert Link(next, prev, x, At(h, s, k + 1)) && Link(next, prev, At(h, s, k + 1), y);
    forall i, j | 0 <= i < j < |s'| ensures s'[i] != s'[j] {
      assert s'[i] == s[if i < k then i else i + 1] && s'[j] == s[if j < k then j else j + 1];
    }
    forall j | 0 <= j <= |s'| ensures Link(next', prev', At(h, s', j), At(h, s', j + 1)) {
      if j < k {
        AtDiffer(h, s, j, k);
        if k + 2 <= |s| + 1 { AtDiffer(h, s, j + 1, k + 2); }
        assert Link(next, prev, At(h, s, j), At(h, s, j + 1));
      } else if j > k {
        AtDiffer(h, s, k, j + 1);
        AtDiffer(h, s, k + 2, j + 2);
        assert Link(next, prev, At(h, s, j + 1), At(h, s, j + 2));
      }
    }
  }

  /** Links outside the ring do not matter to it. */
  lemma RingFrame(next: map<nat, nat>, prev: map<nat, nat>, next': map<nat, nat>, prev': map<nat, nat>, h: nat,
                  s: seq<nat>)
    requires Ring(next, prev, h, s)
    requires forall x :: (x == h || x in s) && x in next ==> x in next' && next'[x] == next[x]
    requires forall x :: (x == h || x in s) && x in prev ==> x in prev' && prev'[x] == prev[x]
    ensures Ring(next', prev', h, s)
  {
    forall k | 0 <= k <= |s| ensures Link(next', prev', At(h, s, k), At(h, s, k + 1)) {
      assert Link(next, prev, At(h, s, k), At(h, s, k + 1));
    }
  }

  lemma {:induction false} DropIsWithout(s: seq<nat>, k: nat)
    requires Distinct(s) && k < |s|
    ensures Drop(s, k) == Without(s, s[k])
  {
    if k > 0 {
      HeadTail(s);
      assert s[0] != s[k];
      assert s[1..][k - 1] == s[k];
      DropIsWithout(s[1..], k - 1);
      assert Drop(s, k) == [s[0]] + Drop(s[1..], k - 1);
    }
  }
}
