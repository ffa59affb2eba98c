/** The recursive mutex of rt-thread/src/ipc.c with priority inheritance, as a state machine. Runs are those of
    one mutex, without signals. */
module MutexSteps {
  import opened Machine
  import opened WaitList
  import opened ThreadError

  /** `innate` are the priorities the threads were assigned, `prio` the current ones; `ready` are the threads taken
      off the wait list that have not run yet. */
  datatype State = State(
    flag: Flag,
    value: nat,
    owner: Option<Tid>,
    hold: nat,
    original: int,
    waiters: seq<Tid>,
    prio: Priorities,
    error: Errors,
    ready: set<Tid>,
    innate: Priorities)

  datatype Op =
    | Take(t: Tid, wait: bool)
    | Release(t: Tid)
    | Return(t: Tid)
    | Expire(t: Tid)
    | SetPriority(t: Tid, p: int)

  /** The owner does not push the 8-bit nesting count over its largest value. */
  const MAX_HOLD: nat := 255

  const NO_PRIORITY := 0xff

  predicate Enabled(s: State, op: Op) {
    match op
    case Take(t, _) => t !in s.waiters && t !in s.ready && (s.owner == Some(t) ==> s.hold < MAX_HOLD)
    case Release(t) => t !in s.waiters && t !in s.ready
    case Return(t) => t in s.ready
    case Expire(t) => t in s.waiters
    case SetPriority(_, _) => true
  }

  /** rt_mutex_take up to its return or its suspension. */
  function TakeStep(s: State, t: Tid, wait: bool): State {
    var s1 := s.(error := s.error[t := EOK]);
    if s.owner == Some(t) then s1.(hold := s.hold + 1)
    else if s.value > 0 then
      s1.(value := s.value - 1, owner := Some(t), original := Pri(s.prio, t), hold := s.hold + 1)
    else if !wait then s.(error := s.error[t := ETIMEOUT])
    else
      var prio := if s.owner.Some? && Pri(s.prio, t) < Pri(s.prio, s.owner.value)
                  then s.prio[s.owner.value := Pri(s.prio, t)] else s.prio;
      s1.(prio := prio, waiters := Suspend(s.flag, s.waiters, prio, t))
  }

  /** rt_mutex_release; only the owner's call has an effect on the mutex. */
  function ReleaseStep(s: State, t: Tid): State {
    if s.owner != Some(t) || s.hold == 0 then s.(error := s.error[t := ERROR])
    else if s.hold > 1 then s.(hold := s.hold - 1)
    else
      var prio := if s.original != Pri(s.prio, t) then s.prio[t := s.original] else s.prio;
      if s.waiters != [] then
        var w := s.waiters[0];
        s.(prio := prio, owner := Some(w), original := Pri(prio, w), hold := 1,
           waiters := s.waiters[1..], ready := s.ready + {w})
      else s.(prio := prio, value := s.value + 1, owner := None, original := NO_PRIORITY, hold := 0)
  }

  function Next(s: State, op: Op): State
    requires Enabled(s, op)
  {
    match op
    case Take(t, wait) => TakeStep(s, t, wait)
    case Release(t) => ReleaseStep(s, t)
    case Return(t) => s.(ready := s.ready - {t})
    case Expire(t) => s.(waiters := Without(s.waiters, t), error := s.error[t := ETIMEOUT], ready := s.ready + {t})
    case SetPriority(t, p) => s.(prio := s.prio[t := p], innate := s.innate[t := p])
  }

  /** What the call returns; a blocked take returns later, by `Return`. */
  function Result(s: State, op: Op): Err {
    match op
    case Take(t, wait) => if s.owner == Some(t) || s.value > 0 then EOK else if wait then Blocked else ETIMEOUT
    case Release(t) => if s.owner == Some(t) then EOK else ERROR
    case Return(t) => ErrorOf(s.error, t)
    case _ => EOK
  }

  // ----- Ownership

  /** Free, value 1 and hold 0 are the same thing; who waits waits for an owner that does not. */
  ghost predicate Owned(s: State) {
    && (s.owner.None? <==> s.hold == 0) && s.value == (if s.owner.None? then 1 else 0)
    && Distinct(s.waiters)
    && (s.waiters != [] ==> s.owner.Some? && s.owner.value !in s.waiters)
  }

  /** A thread that is about to return from a blocked take has error RT_EOK just if it is the owner. */
  ghost predicate Told(s: State) {
    && (forall t :: t in s.ready ==> t !in s.waiters && (ErrorOf(s.error, t) == EOK <==> s.owner == Some(t)))
    && (forall t :: t in s.waiters ==> ErrorOf(s.error, t) == EOK)
  }

  lemma TakeOwned(s: State, t: Tid, wait: bool)
    requires Owned(s) && Told(s) && Enabled(s, Take(t, wait))
    ensures Owned(TakeStep(s, t, wait)) && Told(TakeStep(s, t, wait))
  {
    if s.owner != Some(t) && s.value == 0 && wait {
      SuspendDistinct(s.flag, s.waiters, TakeStep(s, t, wait).prio, t);
    }
  }

  lemma ReleaseOwned(s: State, t: Tid)
    requires Owned(s) && Told(s) && Enabled(s, Release(t))
    ensures Owned(ReleaseStep(s, t)) && Told(ReleaseStep(s, t))
  {
    if s.waiters != [] { HeadTail(s.waiters); }
  }

  lemma ExpireOwned(s: State, t: Tid)
    requires Owned(s) && Told(s) && Enabled(s, Expire(t))
    ensures Owned(Next(s, Expire(t))) && Told(Next(s, Expire(t)))
  {
    WithoutDistinct(s.waiters, t);
  }

  /** Every step keeps ownership, and what the resumed threads are told about it. */
  lemma StepOwned(s: State, op: Op)
    requires Owned(s) && Told(s) && Enabled(s, op)
    ensures Owned(Next(s, op)) && Told(Next(s, op))
  {
    match op
    case Take(t, wait) => TakeOwned(s, t, wait);
    case Release(t) => ReleaseOwned(s, t);
    case Return(t) =>
    case Expire(t) => ExpireOwned(s, t);
    case SetPriority(t, p) =>
  }

  /** A blocked take returns RT_EOK just if the thread is the owner. */
  lemma ReturnsOkExactly(s: State, t: Tid)
    requires Told(s) && Enabled(s, Return(t))
    ensures Result(s, Return(t)) == EOK <==> s.owner == Some(t)
  {
  }

  /** A thread taken off the list finds the reason in its error, and it stays there until the thread runs. */
  lemma StepErrors(s: State, op: Op, t: Tid)
    requires Owned(s) && Told(s) && Enabled(s, op)
    ensures var s' := Next(s, op);
            && (t in s.waiters && t !in s'.waiters ==>
                  t in s'.ready && ErrorOf(s'.error, t) == if op.Release? then EOK else ETIMEOUT)
            && (t in s.ready && t in s'.ready ==> ErrorOf(s'.error, t) == ErrorOf(s.error, t))
            && (t in s.ready && t !in s'.ready ==> op == Return(t))
            && (op.Expire? ==> op.t !in s'.waiters)
  {
    if op.Expire? { WithoutDistinct(s.waiters, op.t); }
    if s.waiters != [] { HeadTail(s.waiters); }
  }

  // ----- Nesting

  /** Counted from the calls and what they return: the takes of `t` that succeeded, at once or after waiting, less its
      releases that succeeded. */
  function Count(s: State, op: Op, t: Tid, n: int): int {
    match op
    case Take(u, _) => if u == t && Result(s, op) == EOK then n + 1 else n
    case Return(u) => if u == t && Result(s, op) == EOK then n + 1 else n
    case Release(u) => if u == t && Result(s, op) == EOK then n - 1 else n
    case _ => n
  }

  ghost function Counted(s: State, ops: seq<Op>, t: Tid, n: int): int
    requires IsRun(s, ops)
    decreases |ops|
  {
    if ops == [] then n else Counted(Next(s, ops[0]), ops[1..], t, Count(s, ops[0], t, n))
  }

  /** `n` is the number of times `t` holds the mutex; a take that was granted and has not returned is still to come. */
  ghost predicate Nested(s: State, t: Tid, n: int) {
    n == if s.owner != Some(t) then 0 else if t in s.ready then s.hold - 1 else s.hold
  }

  lemma StepNested(s: State, op: Op, t: Tid, n: int)
    requires Owned(s) && Told(s) && Enabled(s, op) && Nested(s, t, n)
    ensures Nested(Next(s, op), t, Count(s, op, t, n))
  {
    if s.waiters != [] { HeadTail(s.waiters); }
  }

  // ----- Inheritance

  /** No waiter is more urgent than the owner. */
  ghost predicate Inherited(s: State) {
    forall t :: t in s.waiters ==> s.owner.Some? && Pri(s.prio, s.owner.value) <= Pri(s.prio, t)
  }

  /** The first of a list is as urgent as any on it. */
  ghost predicate FirstLeads(ws: seq<Tid>, prio: Priorities) {
    ws != [] ==> forall u :: u in ws ==> Pri(prio, ws[0]) <= Pri(prio, u)
  }

  /** The step is a release that hands the mutex over to a waiter. */
  predicate HandsOver(s: State, op: Op) {
    op.Release? && s.owner == Some(op.t) && s.hold == 1 && s.waiters != []
  }

  /** A hand-over goes to the most urgent waiter, and no change of priority lets a waiter overtake the owner. */
  ghost predicate Fair(s: State, op: Op) {
    && (HandsOver(s, op) ==> FirstLeads(s.waiters, s.prio))
    && (op.SetPriority? && s.owner == Some(op.t) ==> forall u :: u in s.waiters ==> op.p <= Pri(s.prio, u))
    && (op.SetPriority? && op.t in s.waiters ==> s.owner.Some? && Pri(s.prio, s.owner.value) <= op.p)
  }

  /** After a hand-over no waiter outranks the owner if and only if the new owner was the most urgent waiter; it does
      not inherit from those that still wait. */
  lemma HandOverInherits(s: State, t: Tid)
    requires Owned(s) && HandsOver(s, Release(t))
    ensures Inherited(ReleaseStep(s, t)) <==> FirstLeads(s.waiters, s.prio)
  {
    HeadTail(s.waiters);
  }

  lemma SetPriorityInherits(s: State, t: Tid, p: int)
    requires Owned(s) && Inherited(s)
    ensures Inherited(Next(s, SetPriority(t, p))) <==> Fair(s, SetPriority(t, p))
  {
  }

  lemma TakeInherits(s: State, t: Tid, wait: bool)
    requires Owned(s) && Inherited(s) && Enabled(s, Take(t, wait))
    ensures Inherited(TakeStep(s, t, wait))
  {
  }

  /** FIFO or PRIO: a step keeps the owner as urgent as every waiter if and only if it is fair. */
  lemma StepInherits(s: State, op: Op)
    requires Owned(s) && Inherited(s) && Enabled(s, op)
    ensures Inherited(Next(s, op)) <==> Fair(s, op)
  {
    match op
    case Take(t, wait) => TakeInherits(s, t, wait);
    case Release(t) => if HandsOver(s, op) { HandOverInherits(s, t); }
    case Return(t) =>
    case Expire(t) =>
    case SetPriority(t, p) => SetPriorityInherits(s, t, p);
  }

  /** On a FIFO mutex it can go wrong: thread 2, of priority 5, waits behind thread 1, of priority 20, for
      thread 0 to release. */
  lemma FifoHandOverCanInvert()
    ensures var s0 := Unlocked(FIFO, map[0 := 10, 1 := 20, 2 := 5]);
            var s1 := TakeStep(s0, 0, true);
            var s2 := TakeStep(s1, 1, true);
            var s3 := TakeStep(s2, 2, true);
            && Enabled(s0, Take(0, true)) && Enabled(s1, Take(1, true)) && Enabled(s2, Take(2, true))
            && Enabled(s3, Release(0)) && !Inherited(ReleaseStep(s3, 0))
  {
    var s1 := TakeStep(Unlocked(FIFO, map[0 := 10, 1 := 20, 2 := 5]), 0, true);
    var s2 := TakeStep(s1, 1, true);
    assert s2.waiters == [1] && s2.owner == Some(0);
    var s3 := TakeStep(s2, 2, true);
    assert s3.waiters == [1, 2] && s3.owner == Some(0) && s3.original == 10 && s3.hold == 1;
    var s4 := ReleaseStep(s3, 0);
    assert s4.waiters == [2] && s4.owner == Some(1) && s4.waiters[0] == 2;
  }

  // ----- Lent priorities

  /** Only the owner runs above its assigned priority, and the mutex remembers that priority. */
  ghost predicate Borrowed(s: State) {
    && (forall t: Tid :: s.owner != Some(t) ==> Pri(s.prio, t) == Pri(s.innate, t))
    && (s.owner.Some? ==> s.original == Pri(s.innate, s.owner.value) && Pri(s.prio, s.owner.value) <= s.original)
  }

  /** Priorities are lent to the owner only, and on a PRIO mutex the list is sorted and led by the owner. */
  ghost predicate Ranked(s: State) {
    Borrowed(s) && (s.flag == PRIO ==> Sorted(s.waiters, s.prio) && Inherited(s))
  }

  /** With priority `p` the thread `t`, if it is on the list, still fits between its neighbours. */
  ghost predicate FitsSorted(ws: seq<Tid>, prio: Priorities, t: Tid, p: int) {
    forall j :: 0 <= j < |ws| && ws[j] == t ==>
      (j > 0 ==> Pri(prio, ws[j - 1]) <= p) && (j + 1 < |ws| ==> p <= Pri(prio, ws[j + 1]))
  }

  /** A change of priority does not go behind the back of the mutex: the owner is only set back to what the mutex
      remembers, and on a PRIO mutex nobody gets out of line or ahead of the owner. */
  ghost predicate Calm(s: State, op: Op) {
    op.SetPriority? ==>
      && (s.owner == Some(op.t) ==> op.p == s.original)
      && (s.flag == PRIO ==> FitsSorted(s.waiters, s.prio, op.t, op.p) && Fair(s, op))
  }

  /** Changing the priority of a thread that does not wait leaves the list sorted. */
  lemma SortedFrame(ws: seq<Tid>, prio: Priorities, t: Tid, p: int)
    requires Sorted(ws, prio) && t !in ws
    ensures Sorted(ws, prio[t := p])
  {
    OrderedWeaken(ws, AsUrgent(prio), AsUrgent(prio[t := p]));
  }

  lemma SortedExactly(ws: seq<Tid>, prio: Priorities, t: Tid, p: int)
    requires Sorted(ws, prio) && Distinct(ws)
    ensures Sorted(ws, prio[t := p]) <==> FitsSorted(ws, prio, t, p)
  {
    var rel, rel' := AsUrgent(prio), AsUrgent(prio[t := p]);
    if t !in ws {
      SortedFrame(ws, prio, t, p);
    } else if FitsSorted(ws, prio, t, p) {
      var j :| 0 <= j < |ws| && ws[j] == t;
      forall i, k | 0 <= i < k < |ws| ensures rel'(ws[i], ws[k]) {
        assert rel(ws[i], ws[k]);
        assert i < j - 1 ==> rel(ws[i], ws[j - 1]);
        assert j + 1 < k ==> rel(ws[j + 1], ws[k]);
      }
    }
  }

  /** On a sorted list nobody is more urgent than the first, and the rest is sorted. */
  lemma FirstMostUrgent(ws: seq<Tid>, prio: Priorities)
    requires Sorted(ws, prio) && ws != []
    ensures Sorted(ws[1..], prio) && FirstLeads(ws, prio)
  {
    var rel := AsUrgent(prio);
    forall u | u in ws ensures Pri(prio, ws[0]) <= Pri(prio, u) {
      var j :| 0 <= j < |ws| && ws[j] == u;
      assert j > 0 ==> rel(ws[0], ws[j]);
    }
    assert forall i :: 0 <= i < |ws[1..]| ==> ws[1..][i] == ws[i + 1];
  }

  lemma TakeRanked(s: State, t: Tid, wait: bool)
    requires Owned(s) && Ranked(s) && Enabled(s, Take(t, wait))
    ensures Ranked(TakeStep(s, t, wait))
  {
    if s.owner != Some(t) && s.value == 0 && wait && s.flag == PRIO {
      var s' := TakeStep(s, t, wait);
      if s'.prio != s.prio { SortedFrame(s.waiters, s.prio, s.owner.value, Pri(s.prio, t)); }
      SuspendSorted(s.waiters, s'.prio, t);
    }
  }

  lemma ReleaseRanked(s: State, t: Tid)
    requires Owned(s) && Ranked(s) && Enabled(s, Release(t))
    ensures Ranked(ReleaseStep(s, t))
  {
    if HandsOver(s, Release(t)) {
      HeadTail(s.waiters);
      if s.flag == PRIO {
        SortedFrame(s.waiters, s.prio, t, s.original);
        FirstMostUrgent(s.waiters, ReleaseStep(s, t).prio);
      }
    }
  }

  lemma ExpireRanked(s: State, t: Tid)
    requires Ranked(s) && Enabled(s, Expire(t))
    ensures Ranked(Next(s, Expire(t)))
  {
    if s.flag == PRIO { WithoutOrdered(s.waiters, t, AsUrgent(s.prio)); }
  }

  lemma SetPriorityRanked(s: State, t: Tid, p: int)
    requires Owned(s) && Ranked(s)
    ensures Ranked(Next(s, SetPriority(t, p))) <==> Calm(s, SetPriority(t, p))
  {
    hide Inherited, Fair, Sorted, FitsSorted;
    SetPriorityBorrowed(s, t, p);
    if s.flag == PRIO {
      SortedExactly(s.waiters, s.prio, t, p);
      SetPriorityInherits(s, t, p);
    }
  }

  lemma SetPriorityBorrowed(s: State, t: Tid, p: int)
    requires Borrowed(s)
    ensures Borrowed(Next(s, SetPriority(t, p))) <==> (s.owner == Some(t) ==> p == s.original)
  {
  }

  /** A step keeps the ranks if and only if it is calm. */
  lemma StepRanked(s: State, op: Op)
    requires Owned(s) && Ranked(s) && Enabled(s, op)
    ensures Ranked(Next(s, op)) <==> Calm(s, op)
  {
    hide Ranked;
    match op
    case Take(t, wait) => TakeRanked(s, t, wait);
    case Release(t) => ReleaseRanked(s, t);
    case Return(t) => ReturnRanked(s, t);
    case Expire(t) => ExpireRanked(s, t);
    case SetPriority(t, p) => SetPriorityRanked(s, t, p);
  }

  lemma ReturnRanked(s: State, t: Tid)
    requires Ranked(s) && Enabled(s, Return(t))
    ensures Ranked(Next(s, Return(t)))
  {
  }

  /** The last release sets the thread's priority to what the mutex remembers, which is the assigned one, and gives
      the mutex to the first waiter. */
  lemma FinalReleaseRestores(s: State, t: Tid)
    requires Owned(s) && s.owner == Some(t) && s.hold == 1
    ensures var s' := ReleaseStep(s, t);
            && Pri(s'.prio, t) == s.original && (Borrowed(s) ==> Pri(s'.prio, t) == Pri(s.innate, t))
            && s'.owner == (if s.waiters == [] then None else Some(s.waiters[0]))
            && (s'.owner.Some? ==> s'.owner.value in s'.ready && s'.hold == 1)
  {
  }

  // ----- Whole runs

  function Unlocked(flag: Flag, prio: Priorities): State {
    State(flag, 1, None, 0, NO_PRIORITY, [], prio, map[], {}, prio)
  }

  ghost predicate IsRun(s: State, ops: seq<Op>)
    decreases |ops|
  {
    ops != [] ==> Enabled(s, ops[0]) && IsRun(Next(s, ops[0]), ops[1..])
  }

  ghost function After(s: State, ops: seq<Op>): State
    requires IsRun(s, ops)
    decreases |ops|
  {
    if ops == [] then s else After(Next(s, ops[0]), ops[1..])
  }

  /** `P` holds in this state and after every step of the run. */
  ghost predicate Always(s: State, ops: seq<Op>, P: State -> bool)
    requires IsRun(s, ops)
    decreases |ops|
  {
    P(s) && (ops != [] ==> Always(Next(s, ops[0]), ops[1..], P))
  }

  /** Every step of the run is taken in a state where `Q` holds of it. */
  ghost predicate EveryStep(s: State, ops: seq<Op>, Q: (State, Op) -> bool)
    requires IsRun(s, ops)
    decreases |ops|
  {
    ops != [] ==> Q(s, ops[0]) && EveryStep(Next(s, ops[0]), ops[1..], Q)
  }

  lemma {:induction false} RunOwned(s: State, ops: seq<Op>)
    requires Owned(s) && Told(s) && IsRun(s, ops)
    ensures Owned(After(s, ops)) && Told(After(s, ops))
    decreases |ops|
  {
    if ops != [] {
      StepOwned(s, ops[0]);
      RunOwned(Next(s, ops[0]), ops[1..]);
    }
  }

  lemma {:induction false} RunNested(s: State, ops: seq<Op>, t: Tid, n: int)
    requires Owned(s) && Told(s) && IsRun(s, ops) && Nested(s, t, n)
    ensures Nested(After(s, ops), t, Counted(s, ops, t, n))
    decreases |ops|
  {
    if ops != [] {
      StepOwned(s, ops[0]);
      StepNested(s, ops[0], t, n);
      RunNested(Next(s, ops[0]), ops[1..], t, Count(s, ops[0], t, n));
    }
  }

  /** Every run, for every thread: its successful takes less its successful releases are the hold count if it is the
      owner, and 0 otherwise. So a mutex taken n times is free after n releases and not before. */
  lemma EveryRunNested(flag: Flag, prio: Priorities, ops: seq<Op>, t: Tid)
    requires IsRun(Unlocked(flag, prio), ops)
    ensures Nested(After(Unlocked(flag, prio), ops), t, Counted(Unlocked(flag, prio), ops, t, 0))
  {
    RunNested(Unlocked(flag, prio), ops, t, 0);
  }

  /** Every run, priority changes included: ownership is consistent, and a blocked take returns RT_EOK just as
      owner. */
  lemma EveryRunOwned(flag: Flag, prio: Priorities, ops: seq<Op>)
    requires IsRun(Unlocked(flag, prio), ops)
    ensures Owned(After(Unlocked(flag, prio), ops)) && Told(After(Unlocked(flag, prio), ops))
  {
    RunOwned(Unlocked(flag, prio), ops);
  }

  lemma {:induction false} RunInherits(s: State, ops: seq<Op>)
    requires Owned(s) && Told(s) && Inherited(s) && IsRun(s, ops)
    ensures Always(s, ops, s => Inherited(s)) <==> EveryStep(s, ops, (s, op) => Fair(s, op))
    decreases |ops|
  {
    if ops != [] {
      StepOwned(s, ops[0]);
      StepInherits(s, ops[0]);
      if Fair(s, ops[0]) { RunInherits(Next(s, ops[0]), ops[1..]); }
    }
  }

  /** FIFO or PRIO: no waiter outranks the owner at any time of a run if and only if every step of it is fair. */
  lemma EveryRunInherits(flag: Flag, prio: Priorities, ops: seq<Op>)
    requires IsRun(Unlocked(flag, prio), ops)
    ensures var s := Unlocked(flag, prio);
            Always(s, ops, s => Inherited(s)) <==> EveryStep(s, ops, (s, op) => Fair(s, op))
  {
    RunInherits(Unlocked(flag, prio), ops);
  }

  lemma {:induction false} RunRanked(s: State, ops: seq<Op>)
    requires Owned(s) && Told(s) && Ranked(s) && IsRun(s, ops)
    ensures Always(s, ops, s => Ranked(s)) <==> EveryStep(s, ops, (s, op) => Calm(s, op))
    decreases |ops|
  {
    if ops != [] {
      StepOwned(s, ops[0]);
      StepRanked(s, ops[0]);
      if Calm(s, ops[0]) { RunRanked(Next(s, ops[0]), ops[1..]); }
    }
  }

  /** Priorities are lent to the owner only and, on a PRIO mutex, the list stays sorted and led by the owner at all
      times of a run, if and only if every change of priority in it is calm. */
  lemma EveryRunRanked(flag: Flag, prio: Priorities, ops: seq<Op>)
    requires IsRun(Unlocked(flag, prio), ops)
    ensures var s := Unlocked(flag, prio);
            Always(s, ops, s => Ranked(s)) <==> EveryStep(s, ops, (s, op) => Calm(s, op))
  {
    RunRanked(Unlocked(flag, prio), ops);
  }
}

/** rt_mutex with its suspend list as a ring of thread nodes. Each method is one critical section, proved to be
    the step of the same name. */
module Mutex {
  import opened Machine
  import opened WaitList
  import opened CircularList
  import opened ListService
  import opened ThreadError
  import opened MutexSteps

  class Mutex {
    const flag: Flag
    const list: nat                // the address of suspend_thread
    const lists: Lists
    var value: nat
    var owner: Option<Tid>
    var original: int              // original_priority
    var hold: nat
    var prio: Priorities           // current_priority of the threads
    var error: Errors              // error of the threads
    ghost var waiters: seq<Tid>
    ghost var ready: set<Tid>
    ghost var innate: Priorities

    ghost function View(): State
      reads this
    {
      State(flag, value, owner, hold, original, waiters, prio, error, ready, innate)
    }

    ghost predicate Linked()
      reads this, lists
    {
      Ring(lists.next, lists.prev, list, waiters)
    }

    /** rt_mutex_init. */
    constructor (mode: Flag, head: nat, priorities: Priorities)
      ensures Linked() && View() == Unlocked(mode, priorities) && fresh(lists) && list == head
    {
      flag, list, prio, innate, error := mode, head, priorities, priorities, map[];
      value, owner, original, hold := 1, None, NO_PRIORITY, 0;
      lists := new Lists();
      waiters, ready := [], {};
      new;
      lists.Init(list);
    }

    /** rt_mutex_take up to its return or its suspension. */
    method Take(t: Tid, wait: bool) returns (r: Err)
      requires Linked() && Owned(View()) && Enabled(View(), Op.Take(t, wait)) && t != list
      modifies this, lists
      ensures Linked() && View() == Next(old(View()), Op.Take(t, wait))
      ensures r == Result(old(View()), Op.Take(t, wait))
      ensures r == if old(owner) == Some(t) || old(value) > 0 then EOK else if wait then Blocked else ETIMEOUT
    {
      error := error[t := EOK];
      if owner == Some(t) {
        hold := hold + 1;
        return EOK;
      }
      if value > 0 {
        value := value - 1;
        owner := Some(t);
        original := Pri(prio, t);
        hold := hold + 1;
        return EOK;
      }
      if !wait {
        error := error[t := ETIMEOUT];
        return ETIMEOUT;
      }
      if Pri(prio, t) < Pri(prio, owner.value) {
        prio := prio[owner.value := Pri(prio, t)];
      }
      lists.SuspendOn(list, t, flag, prio, waiters);
      waiters := Suspend(flag, waiters, prio, t);
      return Blocked;
    }

    /** rt_mutex_take after the thread was resumed: it returns the thread's error, RT_EOK just as owner. */
    method Return(t: Tid) returns (r: Err)
      requires Linked() && Told(View()) && Enabled(View(), Op.Return(t))
      modifies this`ready
      ensures Linked() && View() == Next(old(View()), Op.Return(t))
      ensures r == Result(old(View()), Op.Return(t)) && (r == EOK <==> owner == Some(t))
    {
      ReturnsOkExactly(View(), t);
      r := ErrorOf(error, t);
      ready := ready - {t};
    }

    /** rt_mutex_release. */
    method Release(t: Tid) returns (r: Err)
      requires Linked() && Owned(View()) && Enabled(View(), Op.Release(t))
      modifies this, lists
      ensures Linked() && View() == Next(old(View()), Op.Release(t))
      ensures r == Result(old(View()), Op.Release(t))
      ensures r == if old(owner) == Some(t) then EOK else ERROR
    {
      if owner != Some(t) {
        error := error[t := ERROR];
        return ERROR;
      }
      hold := hold - 1;
      if hold == 0 {
        if original != Pri(prio, t) {
          prio := prio[t := original];
        }
        var empty := lists.IsEmpty(list, waiters);
        if !empty {
          var thread := lists.First(list, waiters);
          owner := Some(thread);
          original := Pri(prio, thread);
          hold := hold + 1;
          var _ := lists.ResumeFirst(list, waiters);
          waiters, ready := waiters[1..], ready + {thread};
        } else {
          value := value + 1;
          owner := None;
          original := NO_PRIORITY;
        }
      }
      return EOK;
    }

    /** rt_thread_timeout on a thread that waits here. */
    method Expire(t: Tid)
      requires Linked() && Enabled(View(), Op.Expire(t))
      modifies this, lists
      ensures Linked() && View() == Next(old(View()), Op.Expire(t))
    {
      ghost var k :| 0 <= k < |waiters| && waiters[k] == t;
      error := error[t := ETIMEOUT];
      lists.Remove(t, list, waiters, k);
      DropIsWithout(waiters, k);
      waiters, ready := Without(waiters, t), ready + {t};
    }

    /** rt_thread_control(RT_THREAD_CTRL_CHANGE_PRIORITY) from outside the mutex. */
    method SetPriority(t: Tid, p: int)
      requires Linked()
      modifies this`prio, this`innate
      ensures Linked() && View() == Next(old(View()), Op.SetPriority(t, p))
    {
      prio := prio[t := p];
      innate := innate[t := p];
    }
  }
}
