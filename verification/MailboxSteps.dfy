/** The mailbox of rt-thread/src/ipc.c as a state machine; each critical section is one step. */
module MailboxSteps {
  import opened Machine
  import opened WaitList
  import WaitSteps
  import opened ServiceOrder

  type Mail = nat

  datatype State = State(size: nat, queue: seq<Mail>, crowd: WaitSteps.Crowd)

  /** `wait` says that waiting time is left. */
  datatype Op =
    | SendTry(t: Tid, mail: Mail, wait: bool)
    | RecvTry(t: Tid, wait: bool)
    | Fail(t: Tid)
    | Expire(t: Tid)
    | Reset
    | SetPriority(t: Tid, p: int)

  predicate Enabled(s: State, op: Op) {
    match op
    case SendTry(t, _, _) => WaitSteps.MaySend(s.crowd, t)
    case RecvTry(t, _) => WaitSteps.MayReceive(s.crowd, t)
    case Fail(t) => t in s.crowd.failed
    case Expire(t) => t in s.crowd.receivers || t in s.crowd.senders
    case Reset => true
    case SetPriority(_, _) => true
  }

  /** rt_mb_send_wait, on entry or after a wake-up. */
  function SendTryStep(s: State, t: Tid, mail: Mail, wait: bool): State {
    var c := WaitSteps.EnterSender(s.crowd, t);
    if |s.queue| == s.size then s.(crowd := if wait then WaitSteps.BlockSender(s.crowd, t) else c)
    else s.(queue := s.queue + [mail], crowd := WaitSteps.WakeReceiver(c))
  }

  /** rt_mb_recv, on entry or after a wake-up. */
  function RecvTryStep(s: State, t: Tid, wait: bool): State {
    var c := WaitSteps.EnterReceiver(s.crowd, t);
    if s.queue == [] then s.(crowd := if wait then WaitSteps.BlockReceiver(s.crowd, t) else c)
    else s.(queue := s.queue[1..], crowd := WaitSteps.WakeSender(c))
  }

  function Next(s: State, op: Op): State
    requires Enabled(s, op)
  {
    match op
    case SendTry(t, mail, wait) => SendTryStep(s, t, mail, wait)
    case RecvTry(t, wait) => RecvTryStep(s, t, wait)
    case Fail(t) => s.(crowd := WaitSteps.Fail(s.crowd, t))
    case Expire(t) => s.(crowd := WaitSteps.Expire(s.crowd, t))
    case Reset => s.(crowd := WaitSteps.ResumeAll(s.crowd), queue := [])
    case SetPriority(t, p) => s.(crowd := WaitSteps.SetPriority(s.crowd, t, p))
  }

  /** What a call returns, and the mail a receive hands out. */
  datatype Answer = Answer(err: Err, mail: Mail)

  function Result(s: State, op: Op): Answer {
    match op
    case SendTry(_, _, wait) => Answer(if |s.queue| < s.size then EOK else if wait then Blocked else EFULL, 0)
    case RecvTry(_, wait) =>
      if s.queue != [] then Answer(EOK, s.queue[0]) else Answer(if wait then Blocked else ETIMEOUT, 0)
    case _ => Answer(EOK, 0)
  }

  // ----- What every reachable state satisfies

  ghost predicate Bounded(s: State) {
    |s.queue| <= s.size
  }

  /** No thread waits for a mail or a free slot that is not left to a woken thread. */
  ghost predicate NoLostWakeup(s: State) {
    WaitSteps.NoLostWakeup(s.crowd, |s.queue|, s.size - |s.queue|)
  }

  ghost predicate Inv(s: State) {
    Bounded(s) && WaitSteps.Sound(s.crowd) && NoLostWakeup(s)
  }

  lemma SendInv(s: State, t: Tid, mail: Mail, wait: bool)
    requires Inv(s) && Enabled(s, SendTry(t, mail, wait))
    ensures Inv(SendTryStep(s, t, mail, wait))
  {
    hide WaitSteps.Sound, WaitSteps.NoLostWakeup, WaitSteps.MaySend, WaitSteps.BlockSender, WaitSteps.WakeReceiver;
    var c, mails := s.crowd, |s.queue|;
    WaitSteps.EnterSenderKeeps(c, t, mails, s.size - mails);
    if mails == s.size {
      FewerSlots(WaitSteps.EnterSender(c, t), mails);
      if wait { WaitSteps.BlockSenderKeeps(c, t, mails); }
    } else {
      WaitSteps.WakeReceiverKeeps(WaitSteps.EnterSender(c, t), mails + 1, s.size - mails - 1);
    }
  }

  lemma FewerSlots(c: WaitSteps.Crowd, mails: int)
    requires WaitSteps.NoLostWakeup(c, mails, -1)
    ensures WaitSteps.NoLostWakeup(c, mails, 0)
  {
  }

  lemma FewerMails(c: WaitSteps.Crowd, slots: int)
    requires WaitSteps.NoLostWakeup(c, -1, slots)
    ensures WaitSteps.NoLostWakeup(c, 0, slots)
  {
  }

  lemma RecvInv(s: State, t: Tid, wait: bool)
    requires Inv(s) && Enabled(s, RecvTry(t, wait))
    ensures Inv(RecvTryStep(s, t, wait))
  {
    hide WaitSteps.Sound, WaitSteps.NoLostWakeup, WaitSteps.MayReceive, WaitSteps.BlockReceiver, WaitSteps.WakeSender;
    var c, mails := s.crowd, |s.queue|;
    WaitSteps.EnterReceiverKeeps(c, t, mails, s.size - mails);
    if mails == 0 {
      FewerMails(WaitSteps.EnterReceiver(c, t), s.size);
      if wait { WaitSteps.BlockReceiverKeeps(c, t, s.size); }
    } else {
      WaitSteps.WakeSenderKeeps(WaitSteps.EnterReceiver(c, t), mails - 1, s.size - mails + 1);
    }
  }

  /** Every step keeps the invariant. */
  lemma StepInv(s: State, op: Op)
    requires Inv(s) && Enabled(s, op)
    ensures Inv(Next(s, op))
  {
    hide WaitSteps.Sound, WaitSteps.NoLostWakeup;
    var mails := |s.queue|;
    match op
    case SendTry(t, mail, wait) => SendInv(s, t, mail, wait);
    case RecvTry(t, wait) => RecvInv(s, t, wait);
    case Fail(t) => WaitSteps.QuietKeeps(s.crowd, t, 0, mails, s.size - mails);
    case Expire(t) => WaitSteps.ExpireKeeps(s.crowd, t, mails, s.size - mails);
    case Reset => WaitSteps.ResumeAllKeeps(s.crowd, 0, s.size);
    case SetPriority(t, p) => WaitSteps.QuietKeeps(s.crowd, t, p, mails, s.size - mails);
  }

  // ----- First in, first out

  /** The mails sent and received since the last reset, by the calls and what they return. */
  datatype Log = Log(sent: seq<Mail>, received: seq<Mail>)

  function Write(s: State, op: Op, l: Log): Log {
    match op
    case SendTry(_, mail, _) => if Result(s, op).err == EOK then l.(sent := l.sent + [mail]) else l
    case RecvTry(_, _) => if Result(s, op).err == EOK then l.(received := l.received + [Result(s, op).mail]) else l
    case Reset => Log([], [])
    case _ => l
  }

  ghost function Written(s: State, ops: seq<Op>, l: Log): Log
    requires IsRun(s, ops)
    decreases |ops|
  {
    if ops == [] then l else Written(Next(s, ops[0]), ops[1..], Write(s, ops[0], l))
  }

  /** What was received is what was sent first, in that order, and the rest is in the mailbox. */
  ghost predicate Fifo(s: State, l: Log) {
    l.sent == l.received + s.queue
  }

  lemma StepFifo(s: State, op: Op, l: Log)
    requires Inv(s) && Enabled(s, op) && Fifo(s, l)
    ensures Fifo(Next(s, op), Write(s, op, l))
  {
    hide WaitSteps.Sound, WaitSteps.NoLostWakeup;
    assert s.queue != [] ==> s.queue == [s.queue[0]] + s.queue[1..];
  }

  /** A change of priority lets the thread, if it waits, fit between its neighbours. */
  ghost predicate Calm(s: State, op: Op) {
    op.SetPriority? ==> WaitSteps.Fits(s.crowd, op.t, op.p)
  }

  /** A step keeps both wait lists in the order of service if and only if it is calm. */
  lemma StepInLines(s: State, op: Op)
    requires Inv(s) && Enabled(s, op) && WaitSteps.InLines(s.crowd)
    ensures WaitSteps.InLines(Next(s, op).crowd) <==> Calm(s, op)
  {
    hide WaitSteps.Fits, InLine;
    match op
    case SendTry(t, _, _) =>
      WaitSteps.BlockInLines(s.crowd, t);
      WaitSteps.LeaveInLines(WaitSteps.EnterSender(s.crowd, t), t);
    case RecvTry(t, _) =>
      WaitSteps.BlockInLines(s.crowd, t);
      WaitSteps.LeaveInLines(WaitSteps.EnterReceiver(s.crowd, t), t);
    case Fail(t) =>
    case Expire(t) => WaitSteps.LeaveInLines(s.crowd, t);
    case Reset => WaitSteps.LeaveInLines(s.crowd, 0);
    case SetPriority(t, p) => WaitSteps.SetPriorityInLines(s.crowd, t, p);
  }

  // ----- Whole runs

  function Empty(size: nat, flag: Flag, prio: Priorities): State {
    State(size, [], WaitSteps.Nobody(flag, prio))
  }

  ghost predicate IsRun(s: State, ops: seq<Op>)
    decreases |ops|
  {
    ops != [] ==> Enabled(s, ops[0]) && IsRun(Next(s, ops[0]), ops[1..])
  }

  ghost function After(s: State, ops: seq<Op>): State
    requires IsRun(s, ops)
    decreases |ops|
  {
    if ops == [] then s else After(Next(s, ops[0]), ops[1..])
  }

  lemma {:induction false} RunFrom(s: State, ops: seq<Op>)
    requires Inv(s) && IsRun(s, ops)
    ensures Inv(After(s, ops))
    decreases |ops|
  {
    if ops != [] {
      StepInv(s, ops[0]);
      RunFrom(Next(s, ops[0]), ops[1..]);
    }
  }

  lemma {:induction false} RunFifo(s: State, ops: seq<Op>, l: Log)
    requires Inv(s) && IsRun(s, ops) && Fifo(s, l)
    ensures Fifo(After(s, ops), Written(s, ops, l))
    decreases |ops|
  {
    if ops != [] {
      StepInv(s, ops[0]);
      StepFifo(s, ops[0], l);
      RunFifo(Next(s, ops[0]), ops[1..], Write(s, ops[0], l));
    }
  }

  /** Every run of senders, receivers, timeouts, resets and priority changes keeps the order of the mails and loses
      no wake-up, and resumed threads know why they were resumed. */
  lemma EveryRunFifo(size: nat, flag: Flag, prio: Priorities, ops: seq<Op>)
    requires IsRun(Empty(size, flag, prio), ops)
    ensures var s := After(Empty(size, flag, prio), ops);
            && Fifo(s, Written(Empty(size, flag, prio), ops, Log([], []))) && Bounded(s)
            && WaitSteps.Sound(s.crowd) && NoLostWakeup(s)
  {
    RunFrom(Empty(size, flag, prio), ops);
    RunFifo(Empty(size, flag, prio), ops, Log([], []));
  }

  /** Both wait lists are in line in this state and after every step of the run. */
  ghost predicate AlwaysInLines(s: State, ops: seq<Op>)
    requires IsRun(s, ops)
    decreases |ops|
  {
    WaitSteps.InLines(s.crowd) && (ops != [] ==> AlwaysInLines(Next(s, ops[0]), ops[1..]))
  }

  ghost predicate CalmRun(s: State, ops: seq<Op>)
    requires IsRun(s, ops)
    decreases |ops|
  {
    ops != [] ==> Calm(s, ops[0]) && CalmRun(Next(s, ops[0]), ops[1..])
  }

  lemma {:induction false} CalmFrom(s: State, ops: seq<Op>)
    requires Inv(s) && WaitSteps.InLines(s.crowd) && IsRun(s, ops)
    ensures AlwaysInLines(s, ops) <==> CalmRun(s, ops)
    decreases |ops|
  {
    if ops != [] {
      StepInv(s, ops[0]);
      StepInLines(s, ops[0]);
      if Calm(s, ops[0]) { CalmFrom(Next(s, ops[0]), ops[1..]); }
    }
  }

  /** Both wait lists keep the order of service throughout a run if and only if its priority changes are calm. */
  lemma EveryRunInLines(size: nat, flag: Flag, prio: Priorities, ops: seq<Op>)
    requires IsRun(Empty(size, flag, prio), ops)
    ensures AlwaysInLines(Empty(size, flag, prio), ops) <==> CalmRun(Empty(size, flag, prio), ops)
  {
    CalmFrom(Empty(size, flag, prio), ops);
  }
}
