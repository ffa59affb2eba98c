/** The list operations of rt-thread/include/rtservice.h and the wait-list insertion of
    rt-thread/src/ipc.c, working in place on the links and refining a sequence. */
module ListService {
  import opened Machine
  import opened WaitList
  import opened CircularList
  import opened ThreadError

  /** The `next` and `prev` fields of all list nodes. A node is named by its address. */
  class Lists {
    var next: map<nat, nat>
    var prev: map<nat, nat>

    constructor ()
      ensures next == map[] && prev == map[]
    {
      next, prev := map[], map[];
    }

    ghost predicate IsRing(h: nat, s: seq<nat>)
      reads this
    {
      Ring(next, prev, h, s)
    }

    /** Rings that do not touch the nodes in `touched` are as before. */
    twostate predicate OthersKept(touched: set<nat>)
      reads this
    {
      forall h, s :: old(Ring(next, prev, h, s)) && h !in touched && (forall x :: x in s ==> x !in touched) ==>
        Ring(next, prev, h, s)
    }

    /** The links of nodes outside `touched` are as before. */
    twostate predicate LinksKept(touched: set<nat>)
      reads this
    {
      && (forall x :: x !in touched && x in old(next) ==> x in next && next[x] == old(next)[x])
      && (forall x :: x !in touched && x in old(prev) ==> x in prev && prev[x] == old(prev)[x])
    }

    twostate lemma Frame(touched: set<nat>)
      requires LinksKept(touched)
      ensures OthersKept(touched)
    {
      forall h, s | old(Ring(next, prev, h, s)) && h !in touched && (forall x :: x in s ==> x !in touched)
        ensures Ring(next, prev, h, s)
      {
        RingFrame(old(next), old(prev), next, prev, h, s);
      }
    }

    method Init(l: nat)
      modifies this
      ensures IsRing(l, []) && LinksKept({l}) && OthersKept({l})
    {
      next := next[l := l];
      prev := prev[l := l];
      Frame({l});
    }

    /** rt_list_insert_after: `l` is the node `k` steps behind the head `h` of the ring `s`. */
    method InsertAfter(l: nat, n: nat, ghost h: nat, ghost s: seq<nat>, ghost k: nat)
      requires IsRing(h, s) && k <= |s| && l == At(h, s, k) && n != h && n !in s
      modifies this
      ensures IsRing(h, InsertAt(s, k, n)) && LinksKept({h, n} + SetOf(s)) && OthersKept({h, n} + SetOf(s))
    {
      assert Link(next, prev, At(h, s, k), At(h, s, k + 1));
      CircularList.InsertAfter(next, prev, h, s, k, n);
      prev := prev[next[l] := n];
      next := next[n := next[l]];
      next := next[l := n];
      prev := prev[n := l];
      Frame({h, n} + SetOf(s));
    }

    /** rt_list_insert_before: `l` is the node `k + 1` steps behind the head, or the head itself. */
    method InsertBefore(l: nat, n: nat, ghost h: nat, ghost s: seq<nat>, ghost k: nat)
      requires IsRing(h, s) && k <= |s| && l == At(h, s, k + 1) && n != h && n !in s
      modifies this
      ensures IsRing(h, InsertAt(s, k, n)) && LinksKept({h, n} + SetOf(s)) && OthersKept({h, n} + SetOf(s))
    {
      assert Link(next, prev, At(h, s, k), At(h, s, k + 1));
      CircularList.InsertAfter(next, prev, h, s, k, n);
      next := next[prev[l] := n];
      prev := prev[n := prev[l]];
      prev := prev[l := n];
      next := next[n := l];
      ghost var x, y := At(h, s, k), At(h, s, k + 1);
      assert next == old(next)[n := y][x := n];
      Frame({h, n} + SetOf(s));
    }

    /** rt_list_remove: the node leaves its ring and becomes a ring of its own. */
    method Remove(n: nat, ghost h: nat, ghost s: seq<nat>, ghost k: nat)
      requires IsRing(h, s) && k < |s| && n == s[k]
      modifies this
      ensures IsRing(h, Drop(s, k)) && IsRing(n, []) && LinksKept({h} + SetOf(s)) && OthersKept({h} + SetOf(s))
    {
      CircularList.Remove(next, prev, h, s, k);
      prev := prev[next[n] := prev[n]];
      next := next[prev[n] := next[n]];
      ghost var next1, prev1 := next, prev;
      next := next[n := n];
      prev := prev[n := n];
      assert n !in Drop(s, k) && n != h by {
        assert s[k] in s;
        assert forall i :: 0 <= i < |Drop(s, k)| ==> Drop(s, k)[i] == s[if i < k then i else i + 1];
      }
      RingFrame(next1, prev1, next, prev, h, Drop(s, k));
      Frame({h} + SetOf(s));
    }

    method IsEmpty(l: nat, ghost s: seq<nat>) returns (b: bool)
      requires IsRing(l, s)
      ensures b <==> s == []
    {
      assert Link(next, prev, At(l, s, 0), At(l, s, 1));
      assert s != [] ==> s[0] in s;
      b := next[l] == l;
    }

    method Len(l: nat, ghost s: seq<nat>) returns (len: nat)
      requires IsRing(l, s)
      ensures len == |s|
    {
      len := 0;
      var p := l;
      assert forall i :: 0 <= i < |s| ==> s[i] != l;
      assert Link(next, prev, At(l, s, 0), At(l, s, 1));
      while next[p] != l
        invariant len <= |s| && p == At(l, s, len) && Link(next, prev, p, At(l, s, len + 1))
        decreases |s| - len
      {
        p := next[p];
        len := len + 1;
        assert Link(next, prev, At(l, s, len), At(l, s, len + 1));
      }
    }

    /** The node behind the head of a list that is not empty. */
    method First(l: nat, ghost s: seq<nat>) returns (n: nat)
      requires IsRing(l, s) && s != []
      ensures n == s[0]
    {
      assert Link(next, prev, At(l, s, 0), At(l, s, 1));
      n := next[l];
    }

    /** rt_ipc_list_resume: the first thread leaves the list. */
    method ResumeFirst(l: nat, ghost s: seq<nat>) returns (n: nat)
      requires IsRing(l, s) && s != []
      modifies this
      ensures n == s[0] && IsRing(l, s[1..]) && LinksKept({l} + SetOf(s)) && OthersKept({l} + SetOf(s))
    {
      n := First(l, s);
      assert Drop(s, 0) == s[1..];
      Remove(n, l, s, 0);
    }

    /** rt_ipc_list_resume_all: every thread leaves the list, with RT_ERROR. */
    method ResumeAll(l: nat, error: Errors, ghost s: seq<Tid>) returns (r: Errors)
      requires IsRing(l, s)
      modifies this
      ensures IsRing(l, []) && r == FailAll(error, s)
      ensures LinksKept({l} + SetOf(s)) && OthersKept({l} + SetOf(s))
    {
      ghost var rest := s;
      r := error;
      var empty := IsEmpty(l, rest);
      while !empty
        invariant IsRing(l, rest) && (empty <==> rest == []) && SetOf(rest) <= SetOf(s)
        invariant FailAll(r, rest) == FailAll(error, s) && LinksKept({l} + SetOf(s))
        decreases |rest|
      {
        var thread := First(l, rest);
        r := r[thread := ERROR];
        var _ := ResumeFirst(l, rest);
        rest := rest[1..];
        empty := IsEmpty(l, rest);
      }
      Frame({l} + SetOf(s));
    }

    /** rt_ipc_list_suspend: puts thread `t` on the wait list with head `list`. */
    method SuspendOn(list: nat, t: Tid, flag: Flag, prio: Priorities, ghost s: seq<Tid>)
      requires IsRing(list, s) && t != list && t !in s
      modifies this
      ensures IsRing(list, WaitList.Suspend(flag, s, prio, t))
      ensures LinksKept({list, t} + SetOf(s)) && OthersKept({list, t} + SetOf(s))
    {
      match flag
      case FIFO =>
        InsertBefore(list, t, list, s, |s|);
      case PRIO =>
        assert Link(next, prev, At(list, s, 0), At(list, s, 1));
        var n := next[list];
        ghost var k := 0;
        while n != list && Pri(prio, n) <= Pri(prio, t)
          invariant k <= |s| && n == At(list, s, k + 1)
          invariant forall i :: 0 <= i < k ==> Pri(prio, s[i]) <= Pri(prio, t)
          decreases |s| - k
        {
          assert Link(next, prev, At(list, s, k + 1), At(list, s, k + 2));
          n := next[n];
          k := k + 1;
        }
        assert k < |s| ==> s[k] in s;
        SlotIs(s, prio, Pri(prio, t), k);
        InsertBefore(n, t, list, s, k);
    }

    // ----- The same on one of two lists

    ghost predicate AreRings(h: nat, s: seq<nat>, g: nat, u: seq<nat>)
      reads this
    {
      Rings(next, prev, h, s, g, u)
    }

    method SuspendOnOneOf(list: nat, t: Tid, flag: Flag, prio: Priorities, ghost s: seq<Tid>, ghost g: nat,
                          ghost u: seq<Tid>)
      requires AreRings(list, s, g, u) && t != list && t !in s && t != g && t !in u
      modifies this
      ensures AreRings(list, WaitList.Suspend(flag, s, prio, t), g, u)
    {
      SuspendOn(list, t, flag, prio, s);
    }

    method ResumeFirstOfOne(l: nat, ghost s: seq<nat>, ghost g: nat, ghost u: seq<nat>)
      requires AreRings(l, s, g, u) && s != []
      modifies this
      ensures AreRings(l, s[1..], g, u)
    {
      var _ := ResumeFirst(l, s);
    }

    /** rt_list_remove on a node of either list. */
    method RemoveFromEither(n: nat, ghost h: nat, ghost s: seq<nat>, ghost g: nat, ghost u: seq<nat>)
      requires AreRings(h, s, g, u) && (n in s || n in u)
      modifies this
      ensures AreRings(h, Without(s, n), g, Without(u, n))
    {
      hide Without, Distinct;
      ghost var head, list := if n in s then h else g, if n in s then s else u;
      ghost var k :| 0 <= k < |list| && list[k] == n;
      Remove(n, head, list, k);
      DropIsWithout(list, k);
    }

    method ResumeAllOfBoth(l: nat, g: nat, error: Errors, ghost s: seq<Tid>, ghost u: seq<Tid>) returns (r: Errors)
      requires AreRings(l, s, g, u)
      modifies this
      ensures AreRings(l, [], g, []) && r == FailAll(FailAll(error, s), u)
    {
      r := ResumeAll(l, error, s);
      r := ResumeAll(g, r, u);
    }
  }

  /** Two lists in the same links: the wait lists of an object for receivers and for senders. */
  ghost predicate Rings(next: map<nat, nat>, prev: map<nat, nat>, h: nat, s: seq<nat>, g: nat, u: seq<nat>) {
    && Ring(next, prev, h, s) && Ring(next, prev, g, u)
    && h != g && h !in u && g !in s && (forall x :: x in s ==> x !in u)
  }

  /** The slot is the only place with no less urgent thread before it and none as urgent behind it. */
  lemma SlotIs(ws: seq<Tid>, prio: Priorities, p: int, k: nat)
    requires k <= |ws| && (k < |ws| ==> p < Pri(prio, ws[k]))
    requires forall i :: 0 <= i < k ==> Pri(prio, ws[i]) <= p
    ensures PrioSlot(ws, prio, p) == k
  {
    var j := PrioSlot(ws, prio, p);
  }
}
