/** The sequence view of an IPC wait list: the threads a suspend list holds, head first. */
module WaitList {

  type Tid = nat

  predicate Distinct<T(==)>(s: seq<T>) {
    forall i, j :: 0 <= i < j < |s| ==> s[i] != s[j]
  }

  /** `x` placed so that it ends up at index `k`. */
  function InsertAt(s: seq<nat>, k: nat, x: nat): (r: seq<nat>)
    requires k <= |s|
    ensures |r| == |s| + 1 && r[k] == x
    ensures forall y :: y in r <==> y in s || y == x
  {
    assert s == s[..k] + s[k..];
    s[..k] + [x] + s[k..]
  }

  /** `s` with its first occurrence of `x` taken out. */
  function Without(s: seq<nat>, x: nat): (r: seq<nat>)
    ensures x in s ==> |r| == |s| - 1
    ensures x !in s ==> r == s
    ensures forall y :: y != x ==> (y in r <==> y in s)
    ensures forall y :: y in r ==> y in s
  {
    if s == [] then []
    else if s[0] == x then assert s == [s[0]] + s[1..]; s[1..]
    else assert s == [s[0]] + s[1..]; [s[0]] + Without(s[1..], x)
  }

  lemma InsertAtDistinct(s: seq<nat>, k: nat, x: nat)
    requires k <= |s| && Distinct(s) && x !in s
    ensures Distinct(InsertAt(s, k, x))
  {
    var r := InsertAt(s, k, x);
    forall i, j | 0 <= i < j < |r|
      ensures r[i] != r[j]
    {
      assert r[i] == if i < k then s[i] else if i == k then x else s[i - 1];
      assert r[j] == if j < k then s[j] else if j == k then x else s[j - 1];
    }
  }

  lemma ConsDistinct(x: nat, s: seq<nat>)
    requires Distinct(s) && x !in s
    ensures Distinct([x] + s)
  {
    var r := [x] + s;
    forall i, j | 0 <= i < j < |r|
      ensures r[i] != r[j]
    {
      assert r[j] == s[j - 1];
    }
  }

  /** The first element of a list without repetition, and the rest. */
  lemma HeadTail(s: seq<nat>)
    requires s != [] && Distinct(s)
    ensures Distinct(s[1..]) && s[0] !in s[1..]
    ensures forall x :: x in s <==> x == s[0] || x in s[1..]
  {
    assert s == [s[0]] + s[1..];
  }

  lemma SnocDistinct(s: seq<nat>, x: nat)
    requires Distinct(s) && x !in s
    ensures Distinct(s + [x])
  {
    InsertAtDistinct(s, |s|, x);
    assert InsertAt(s, |s|, x) == s + [x];
  }

  lemma {:induction false} WithoutDistinct(s: seq<nat>, x: nat)
    requires Distinct(s)
    ensures Distinct(Without(s, x)) && x !in Without(s, x)
  {
    if s != [] {
      var rest := s[1..];
      assert forall y :: y in rest ==> y != s[0];
      if s[0] != x {
        WithoutDistinct(rest, x);
        var r := Without(rest, x);
        assert forall y :: y in r ==> y in rest;
        ConsDistinct(s[0], r);
      }
    }
  }

  // ----- Lists ordered by a relation

  /** Every thread of the list is related to all that come later. */
  ghost predicate Ordered(ws: seq<Tid>, rel: (Tid, Tid) -> bool) {
    forall i, j :: 0 <= i < j < |ws| ==> rel(ws[i], ws[j])
  }

  lemma InsertOrdered(ws: seq<Tid>, k: nat, t: Tid, rel: (Tid, Tid) -> bool)
    requires Ordered(ws, rel) && k <= |ws|
    requires forall i :: 0 <= i < k ==> rel(ws[i], t)
    requires forall i :: k <= i < |ws| ==> rel(t, ws[i])
    ensures Ordered(InsertAt(ws, k, t), rel)
  {
    var r := InsertAt(ws, k, t);
    forall i, j | 0 <= i < j < |r| ensures rel(r[i], r[j]) {
      assert r[i] == if i < k then ws[i] else if i == k then t else ws[i - 1];
      assert r[j] == if j < k then ws[j] else if j == k then t else ws[j - 1];
    }
  }

  lemma {:induction false} WithoutOrdered(ws: seq<Tid>, t: Tid, rel: (Tid, Tid) -> bool)
    requires Ordered(ws, rel)
    ensures Ordered(Without(ws, t), rel)
  {
    if ws != [] {
      var rest := ws[1..];
      assert forall i :: 0 <= i < |rest| ==> rest[i] == ws[i + 1];
      if ws[0] != t {
        WithoutOrdered(rest, t, rel);
        var tail := Without(rest, t);
        forall j | 0 <= j < |tail| ensures rel(ws[0], tail[j]) {
          assert tail[j] in rest;
        }
        InsertOrdered(tail, 0, ws[0], rel);
        assert Without(ws, t) == InsertAt(tail, 0, ws[0]);
      }
    }
  }

  lemma OrderedWeaken(ws: seq<Tid>, rel: (Tid, Tid) -> bool, rel': (Tid, Tid) -> bool)
    requires Ordered(ws, rel) && forall t, u :: t in ws && u in ws && rel(t, u) ==> rel'(t, u)
    ensures Ordered(ws, rel')
  {
  }

  // ----- Where rt_ipc_list_suspend puts a thread

  datatype Flag = FIFO | PRIO

  /** The current priorities of the threads; a smaller number is more urgent. */
  type Priorities = map<Tid, int>

  const IDLE_PRIORITY := 31

  function Pri(prio: Priorities, t: Tid): int {
    if t in prio then prio[t] else IDLE_PRIORITY
  }

  /** The first place whose thread is less urgent than `p`, or the end. */
  function PrioSlot(ws: seq<Tid>, prio: Priorities, p: int): (k: nat)
    ensures k <= |ws| && (k < |ws| ==> p < Pri(prio, ws[k]))
    ensures forall i :: 0 <= i < k ==> Pri(prio, ws[i]) <= p
  {
    if ws == [] || p < Pri(prio, ws[0]) then 0 else
      var k := PrioSlot(ws[1..], prio, p);
      assert forall i :: 0 < i < k + 1 ==> ws[i] == ws[1..][i - 1];
      k + 1
  }

  function Slot(flag: Flag, ws: seq<Tid>, prio: Priorities, t: Tid): (k: nat)
    ensures k <= |ws|
  {
    match flag
    case FIFO => |ws|
    case PRIO => PrioSlot(ws, prio, Pri(prio, t))
  }

  /** The wait list after thread `t` was suspended on it. */
  function Suspend(flag: Flag, ws: seq<Tid>, prio: Priorities, t: Tid): seq<Tid> {
    InsertAt(ws, Slot(flag, ws, prio, t), t)
  }

  function AsUrgent(prio: Priorities): (Tid, Tid) -> bool {
    (t: Tid, u: Tid) => Pri(prio, t) <= Pri(prio, u)
  }

  ghost predicate Sorted(ws: seq<Tid>, prio: Priorities) {
    Ordered(ws, AsUrgent(prio))
  }

  /** Suspending keeps a PRIO list sorted, and puts `t` behind every thread as urgent as itself. */
  lemma SuspendSorted(ws: seq<Tid>, prio: Priorities, t: Tid)
    requires Sorted(ws, prio)
    ensures var k := Slot(PRIO, ws, prio, t);
            && Sorted(Suspend(PRIO, ws, prio, t), prio)
            && (forall i :: 0 <= i < k ==> Pri(prio, ws[i]) <= Pri(prio, t))
            && (forall i :: k <= i < |ws| ==> Pri(prio, t) < Pri(prio, ws[i]))
  {
    var k := Slot(PRIO, ws, prio, t);
    var rel := AsUrgent(prio);
    forall i | k <= i < |ws| ensures Pri(prio, t) < Pri(prio, ws[i]) {
      assert k < i ==> rel(ws[k], ws[i]);
    }
    InsertOrdered(ws, k, t, rel);
  }

  lemma SuspendDistinct(flag: Flag, ws: seq<Tid>, prio: Priorities, t: Tid)
    requires Distinct(ws) && t !in ws
    ensures Distinct(Suspend(flag, ws, prio, t))
  {
    InsertAtDistinct(ws, Slot(flag, ws, prio, t), t);
  }
}
