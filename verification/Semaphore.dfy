/** The semaphore of rt-thread/src/ipc.c as a state machine; each critical section is one step. */
module SemaphoreSteps {
  import opened Machine
  import opened WaitList
  import opened ServiceOrder
  import opened ThreadError

  /** `ready` are the threads that were taken off the wait list and have not run yet, `granted` those of them to
      whom a release gave a unit. */
  datatype State = State(
    order: Order,
    value: nat,
    waiters: seq<Tid>,
    error: Errors,
    ready: set<Tid>,
    granted: set<Tid>)

  datatype Op =
    | Take(t: Tid, wait: bool)
    | Release
    | Return(t: Tid)
    | Expire(t: Tid)
    | Reset(value: nat)
    | SetPriority(t: Tid, p: int)

  /** The 16-bit counter is not pushed over its largest value. */
  const MAX_VALUE: nat := 65535

  predicate Enabled(s: State, op: Op) {
    match op
    case Take(t, _) => t !in s.waiters && t !in s.ready
    case Release => s.waiters != [] || s.value < MAX_VALUE
    case Return(t) => t in s.ready
    case Expire(t) => t in s.waiters
    case Reset(v) => v <= MAX_VALUE
    case SetPriority(_, _) => true
  }

  /** rt_sem_take up to its return or its suspension. */
  function TakeStep(s: State, t: Tid, wait: bool): State {
    if s.value > 0 then s.(value := s.value - 1)
    else if !wait then s
    else s.(error := s.error[t := EOK], waiters := Place(s.order, s.waiters, t), order := Draw(s.order, t))
  }

  /** rt_sem_release: the first waiter gets the unit, or the counter does. */
  function ReleaseStep(s: State): State {
    if s.waiters == [] then s.(value := s.value + 1)
    else s.(waiters := s.waiters[1..], ready := s.ready + {s.waiters[0]}, granted := s.granted + {s.waiters[0]})
  }

  /** The end of a blocked rt_sem_take: it returns the thread's error. */
  function ReturnStep(s: State, t: Tid): State {
    s.(ready := s.ready - {t}, granted := s.granted - {t})
  }

  function Next(s: State, op: Op): State
    requires Enabled(s, op)
  {
    match op
    case Take(t, wait) => TakeStep(s, t, wait)
    case Release => ReleaseStep(s)
    case Return(t) => ReturnStep(s, t)
    case Expire(t) => s.(waiters := Without(s.waiters, t), error := s.error[t := ETIMEOUT], ready := s.ready + {t})
    case Reset(v) =>
      s.(waiters := [], error := FailAll(s.error, s.waiters), ready := s.ready + SetOf(s.waiters), value := v)
    case SetPriority(t, p) => s.(order := ServiceOrder.SetPriority(s.order, t, p))
  }

  /** What the call returns; a blocked take returns later, by `Return`. */
  function Result(s: State, op: Op): Err {
    match op
    case Take(_, wait) => if s.value > 0 then EOK else if wait then Blocked else ETIMEOUT
    case Return(t) => ErrorOf(s.error, t)
    case _ => EOK
  }

  // ----- What every reachable state satisfies

  /** A thread that is about to return has error RT_EOK just if it was given a unit. */
  ghost predicate Told(s: State) {
    && s.granted <= s.ready
    && (forall t :: t in s.ready ==> t !in s.waiters && (ErrorOf(s.error, t) == EOK <==> t in s.granted))
    && (forall t :: t in s.waiters ==> ErrorOf(s.error, t) == EOK)
  }

  ghost predicate Inv(s: State) {
    && Told(s) && (s.waiters != [] ==> s.value == 0)
    && Distinct(s.waiters) && Drawn(s.order, s.waiters)
  }

  lemma TakeInv(s: State, t: Tid, wait: bool)
    requires Inv(s) && Enabled(s, Take(t, wait))
    ensures Inv(TakeStep(s, t, wait))
  {
    if s.value == 0 && wait { SuspendDistinct(s.order.flag, s.waiters, s.order.prio, t); }
  }

  lemma ReleaseInv(s: State)
    requires Inv(s)
    ensures Inv(ReleaseStep(s))
  {
    if s.waiters != [] { HeadTail(s.waiters); }
  }

  lemma ReturnInv(s: State, t: Tid)
    requires Inv(s) && Enabled(s, Return(t))
    ensures Inv(ReturnStep(s, t))
  {
    assert t !in s.granted ==> s.granted - {t} == s.granted;
  }

  lemma ExpireInv(s: State, t: Tid)
    requires Inv(s) && Enabled(s, Expire(t))
    ensures Inv(Next(s, Expire(t)))
  {
    WithoutDistinct(s.waiters, t);
  }

  lemma ResetInv(s: State, v: nat)
    requires Inv(s) && Enabled(s, Reset(v))
    ensures Inv(Next(s, Reset(v)))
  {
    FailAllEverywhere(s.error, s.waiters);
  }

  lemma SetPriorityInv(s: State, t: Tid, p: int)
    requires Inv(s)
    ensures Inv(Next(s, SetPriority(t, p)))
  {
  }

  /** Every step keeps the invariant. */
  lemma StepInv(s: State, op: Op)
    requires Inv(s) && Enabled(s, op)
    ensures Inv(Next(s, op))
  {
    hide Inv;
    match op
    case Take(t, wait) => TakeInv(s, t, wait);
    case Release => ReleaseInv(s);
    case Return(t) => ReturnInv(s, t);
    case Expire(t) => ExpireInv(s, t);
    case Reset(v) => ResetInv(s, v);
    case SetPriority(t, p) => SetPriorityInv(s, t, p);
  }

  /** A blocked take returns RT_EOK just if a release gave the thread a unit. */
  lemma ReturnsOkExactly(s: State, t: Tid)
    requires Inv(s) && Enabled(s, Return(t))
    ensures Result(s, Return(t)) == EOK <==> t in s.granted
  {
  }

  /** A thread taken off the list finds the reason in its error, and it stays there until the thread runs. */
  lemma StepErrors(s: State, op: Op, t: Tid)
    requires Inv(s) && Enabled(s, op)
    ensures var s' := Next(s, op);
            && (t in s.waiters && t !in s'.waiters ==>
                  && t in s'.ready
                  && ErrorOf(s'.error, t) == if op.Release? then EOK else if op.Expire? then ETIMEOUT else ERROR)
            && (t in s.ready && t in s'.ready ==> ErrorOf(s'.error, t) == ErrorOf(s.error, t))
            && (t in s.ready && t !in s'.ready ==> op == Return(t))
            && (op.Expire? ==> op.t !in s'.waiters) && (op.Reset? ==> s'.waiters == [])
  {
    if op.Expire? { WithoutDistinct(s.waiters, op.t); }
    if op.Reset? { FailAllEverywhere(s.error, s.waiters); }
    if op.Release? && s.waiters != [] { HeadTail(s.waiters); }
  }

  // ----- Conservation

  /** Counted from the calls and what they return: the units at the start or at the last reset, and the releases and
      successful takes since then. */
  datatype Tally = Tally(start: int, releases: int, takes: int)

  function Count(s: State, op: Op, n: Tally): Tally {
    match op
    case Reset(v) => Tally(v + |s.granted|, 0, 0)
    case Release => n.(releases := n.releases + 1)
    case Take(_, _) => if Result(s, op) == EOK then n.(takes := n.takes + 1) else n
    case Return(_) => if Result(s, op) == EOK then n.(takes := n.takes + 1) else n
    case _ => n
  }

  ghost function Counted(s: State, ops: seq<Op>, n: Tally): Tally
    requires IsRun(s, ops)
    decreases |ops|
  {
    if ops == [] then n else Counted(Next(s, ops[0]), ops[1..], Count(s, ops[0], n))
  }

  /** No unit is lost or made up: each is in the counter, was taken, or is on its way to a thread. */
  ghost predicate Conserved(s: State, n: Tally) {
    n.start + n.releases == s.value + n.takes + |s.granted|
  }

  lemma ReturnConserves(s: State, t: Tid, n: Tally)
    requires Told(s) && Enabled(s, Return(t)) && Conserved(s, n)
    ensures Conserved(ReturnStep(s, t), Count(s, Return(t), n))
  {
    assert t !in s.granted ==> s.granted - {t} == s.granted;
  }

  lemma ReleaseConserves(s: State, n: Tally)
    requires Told(s) && Conserved(s, n)
    ensures Conserved(ReleaseStep(s), Count(s, Release, n))
  {
    if s.waiters != [] { assert s.waiters[0] in s.waiters && s.waiters[0] !in s.granted; }
  }

  lemma StepConserves(s: State, op: Op, n: Tally)
    requires Inv(s) && Enabled(s, op) && Conserved(s, n)
    ensures Conserved(Next(s, op), Count(s, op, n))
  {
    hide Distinct, Drawn, Draw, Place, FailAll, Told, ReleaseStep, ReturnStep;
    match op
    case Return(t) => ReturnConserves(s, t, n);
    case Release => ReleaseConserves(s, n);
    case _ =>
  }

  // ----- The order of service

  /** The step does not move a waiting thread out of line: a change of priority lets it fit between its neighbours. */
  ghost predicate Calm(s: State, op: Op) {
    op.SetPriority? ==> FitsBetween(s.order, s.waiters, op.t, op.p)
  }

  /** A step keeps the line if and only if it is calm. */
  lemma StepInLine(s: State, op: Op)
    requires Inv(s) && Enabled(s, op) && InLine(s.order, s.waiters)
    ensures InLine(Next(s, op).order, Next(s, op).waiters) <==> Calm(s, op)
  {
    match op
    case Take(t, wait) => if s.value == 0 && wait { SuspendInLine(s.order, s.waiters, t); }
    case Release => if s.waiters != [] { TailInLine(s.order, s.waiters); }
    case Return(t) =>
    case Expire(t) => WithoutInLine(s.order, s.waiters, t);
    case Reset(v) =>
    case SetPriority(t, p) => SetPriorityInLine(s.order, s.waiters, t, p);
  }

  /** A release serves the first of the list, whom all others are behind while the list is in line. */
  lemma ReleaseServesFirst(s: State, u: Tid)
    requires InLine(s.order, s.waiters) && s.waiters != [] && u in s.waiters && u != s.waiters[0]
    ensures ReleaseStep(s).granted == s.granted + {s.waiters[0]} && Before(s.order, s.waiters[0], u)
  {
    FirstServed(s.order, s.waiters, u);
  }

  // ----- Whole runs

  function Fresh(flag: Flag, value: nat, prio: Priorities): State {
    State(Order(flag, prio, map[], 0), value, [], map[], {}, {})
  }

  ghost predicate IsRun(s: State, ops: seq<Op>)
    decreases |ops|
  {
    ops != [] ==> Enabled(s, ops[0]) && IsRun(Next(s, ops[0]), ops[1..])
  }

  ghost function After(s: State, ops: seq<Op>): State
    requires IsRun(s, ops)
    decreases |ops|
  {
    if ops == [] then s else After(Next(s, ops[0]), ops[1..])
  }

  lemma {:induction false} RunFrom(s: State, ops: seq<Op>)
    requires Inv(s) && IsRun(s, ops)
    ensures Inv(After(s, ops))
    decreases |ops|
  {
    if ops != [] {
      StepInv(s, ops[0]);
      RunFrom(Next(s, ops[0]), ops[1..]);
    }
  }

  lemma {:induction false} RunConserves(s: State, ops: seq<Op>, n: Tally)
    requires Inv(s) && IsRun(s, ops) && Conserved(s, n)
    ensures Conserved(After(s, ops), Counted(s, ops, n))
    decreases |ops|
  {
    if ops != [] {
      StepInv(s, ops[0]);
      StepConserves(s, ops[0], n);
      RunConserves(Next(s, ops[0]), ops[1..], Count(s, ops[0], n));
    }
  }

  /** Every run, priority changes and resets included: the units are conserved, threads wait only at value 0, and
      the threads about to return know whether they were served. */
  lemma EveryRunConserves(flag: Flag, value: nat, prio: Priorities, ops: seq<Op>)
    requires IsRun(Fresh(flag, value, prio), ops)
    ensures var s := After(Fresh(flag, value, prio), ops);
            && Told(s) && (s.waiters != [] ==> s.value == 0) && Distinct(s.waiters)
            && Conserved(s, Counted(Fresh(flag, value, prio), ops, Tally(value, 0, 0)))
  {
    RunFrom(Fresh(flag, value, prio), ops);
    RunConserves(Fresh(flag, value, prio), ops, Tally(value, 0, 0));
  }

  /** The list is in line in this state and after every step of the run. */
  ghost predicate AlwaysInLine(s: State, ops: seq<Op>)
    requires IsRun(s, ops)
    decreases |ops|
  {
    InLine(s.order, s.waiters) && (ops != [] ==> AlwaysInLine(Next(s, ops[0]), ops[1..]))
  }

  ghost predicate CalmRun(s: State, ops: seq<Op>)
    requires IsRun(s, ops)
    decreases |ops|
  {
    ops != [] ==> Calm(s, ops[0]) && CalmRun(Next(s, ops[0]), ops[1..])
  }

  lemma {:induction false} CalmFrom(s: State, ops: seq<Op>)
    requires Inv(s) && InLine(s.order, s.waiters) && IsRun(s, ops)
    ensures AlwaysInLine(s, ops) <==> CalmRun(s, ops)
    decreases |ops|
  {
    if ops != [] {
      StepInv(s, ops[0]);
      StepInLine(s, ops[0]);
      if Calm(s, ops[0]) { CalmFrom(Next(s, ops[0]), ops[1..]); }
    }
  }

  /** A run keeps the order of service throughout if and only if each change of priority lets the thread, if it
      waits, fit between its neighbours. */
  lemma EveryRunInLine(flag: Flag, value: nat, prio: Priorities, ops: seq<Op>)
    requires IsRun(Fresh(flag, value, prio), ops)
    ensures AlwaysInLine(Fresh(flag, value, prio), ops) <==> CalmRun(Fresh(flag, value, prio), ops)
  {
    CalmFrom(Fresh(flag, value, prio), ops);
  }

  lemma TwoWaiters() returns (s: State)
    ensures s == TakeStep(TakeStep(Fresh(PRIO, 0, map[1 := 10, 2 := 20]), 1, true), 2, true)
    ensures s.waiters == [1, 2] && s.order == Order(PRIO, map[1 := 10, 2 := 20], map[1 := 0, 2 := 1], 2)
  {
    var s1 := TakeStep(Fresh(PRIO, 0, map[1 := 10, 2 := 20]), 1, true);
    assert s1.waiters == [1];
    s := TakeStep(s1, 2, true);
    assert PrioSlot([1], s1.order.prio, 20) == 1 by { assert [1][1..] == []; }
  }

  /** A run that loses the order: thread 2 waits behind thread 1 and is then made more urgent than it. */
  lemma PriorityChangeCanMisplace()
    ensures var s := TakeStep(TakeStep(Fresh(PRIO, 0, map[1 := 10, 2 := 20]), 1, true), 2, true);
            InLine(s.order, s.waiters) && !InLine(Next(s, SetPriority(2, 5)).order, s.waiters)
  {
    hide InLine, TakeStep;
    var s := TwoWaiters();
    SetPriorityCanMisplace();
  }
}

/** rt_semaphore with its suspend list as a ring of thread nodes. Each method is one critical section, proved to
    be the step of the same name. */
module Semaphore {
  import opened Machine
  import opened WaitList
  import opened CircularList
  import opened ListService
  import opened ThreadError
  import opened SemaphoreSteps

  class Sem {
    const flag: Flag
    const list: nat                // the address of suspend_thread
    const lists: Lists
    var value: nat
    var prio: Priorities           // current_priority of the threads
    var error: Errors              // error of the threads
    ghost var waiters: seq<Tid>
    ghost var history: State       // carries the parts of the state that only the proof needs

    ghost function View(): State
      reads this
    {
      history.(order := history.order.(flag := flag, prio := prio), value := value, waiters := waiters, error := error)
    }

    ghost predicate Linked()
      reads this, lists
    {
      Ring(lists.next, lists.prev, list, waiters)
    }

    /** rt_sem_init. */
    constructor (initial: nat, mode: Flag, head: nat, priorities: Priorities)
      requires initial < 0x10000
      ensures Linked() && View() == Fresh(mode, initial, priorities) && fresh(lists) && list == head
    {
      flag, list, value, prio, error := mode, head, initial, priorities, map[];
      lists := new Lists();
      waiters := [];
      history := Fresh(mode, initial, priorities);
      new;
      lists.Init(list);
    }

    /** rt_sem_take up to its return or its suspension. */
    method Take(t: Tid, wait: bool) returns (r: Err)
      requires Linked() && Enabled(View(), Op.Take(t, wait)) && t != list
      modifies this, lists
      ensures Linked() && View() == Next(old(View()), Op.Take(t, wait))
      ensures r == Result(old(View()), Op.Take(t, wait))
      ensures r == if old(value) > 0 then EOK else if wait then Blocked else ETIMEOUT
    {
      ghost var s := Next(View(), Op.Take(t, wait));
      if value > 0 {
        value := value - 1;
        r := EOK;
      } else if !wait {
        r := ETIMEOUT;
      } else {
        error := error[t := EOK];
        lists.SuspendOn(list, t, flag, prio, waiters);
        waiters := Suspend(flag, waiters, prio, t);
        r := Blocked;
      }
      history := s;
    }

    /** rt_sem_take after the thread was resumed: it returns the thread's error, RT_EOK just if it was granted a
        unit. */
    method Return(t: Tid) returns (r: Err)
      requires Linked() && Inv(View()) && Enabled(View(), Op.Return(t))
      modifies this
      ensures Linked() && View() == Next(old(View()), Op.Return(t))
      ensures r == Result(old(View()), Op.Return(t)) && (r == EOK <==> t in old(View()).granted)
    {
      ReturnsOkExactly(View(), t);
      r := ErrorOf(error, t);
      history := Next(View(), Op.Return(t));
    }

    /** rt_sem_release. */
    method Release()
      requires Linked() && Enabled(View(), Op.Release)
      modifies this, lists
      ensures Linked() && View() == Next(old(View()), Op.Release)
    {
      ghost var s := Next(View(), Op.Release);
      var empty := lists.IsEmpty(list, waiters);
      if !empty {
        var _ := lists.ResumeFirst(list, waiters);
        waiters := waiters[1..];
      } else {
        value := value + 1;
      }
      history := s;
    }

    /** rt_thread_timeout on a thread that waits here. */
    method Expire(t: Tid)
      requires Linked() && Enabled(View(), Op.Expire(t))
      modifies this, lists
      ensures Linked() && View() == Next(old(View()), Op.Expire(t))
    {
      ghost var s := Next(View(), Op.Expire(t));
      ghost var k :| 0 <= k < |waiters| && waiters[k] == t;
      error := error[t := ETIMEOUT];
      lists.Remove(t, list, waiters, k);
      DropIsWithout(waiters, k);
      waiters := Without(waiters, t);
      history := s;
    }

    /** rt_sem_control(RT_IPC_CMD_RESET): every waiter is resumed with an error, then the value is set. */
    method Reset(v: nat)
      requires Linked() && Enabled(View(), Op.Reset(v))
      modifies this, lists
      ensures Linked() && View() == Next(old(View()), Op.Reset(v)) && value == v && waiters == []
    {
      ghost var s := Next(View(), Op.Reset(v));
      error := lists.ResumeAll(list, error, waiters);
      waiters := [];
      value := v;
      history := s;
    }

    /** rt_thread_control(RT_THREAD_CTRL_CHANGE_PRIORITY), for a thread that waits here or not. */
    method SetPriority(t: Tid, p: int)
      requires Linked()
      modifies this`prio
      ensures Linked() && View() == Next(old(View()), Op.SetPriority(t, p))
    {
      prio := prio[t := p];
    }
  }
}
