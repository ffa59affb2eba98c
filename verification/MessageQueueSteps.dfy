/**
 The message queue of rt-thread/src/ipc.c as a state machine. Every section that runs with interrupts
 disabled is one step; the copies that run between two sections are steps of their own, so that a run
 may interleave any number of threads in the middle of a send or a receive.
 */
module MessageQueueSteps {
  import opened Machine
  import opened WaitList
  import opened ServiceOrder
  import WaitSteps

  /** What a thread between its two critical sections holds: the local variable `msg` and its buffer. */
  datatype Flight =
    | Sending(node: nat, urgent: bool, body: seq<byte>, copied: bool)
    | Receiving(node: nat, want: nat, got: Option<seq<byte>>)

  datatype State = State(
    msgSize: nat,
    data: seq<seq<byte>>,
    free: seq<nat>,
    queue: seq<nat>,
    flight: map<Tid, Flight>,
    crowd: WaitSteps.Crowd)

  /** `wait` says that waiting time is left. */
  datatype Op =
    | SendTry(t: Tid, body: seq<byte>, wait: bool)
    | UrgentTry(t: Tid, body: seq<byte>)
    | SendCopy(t: Tid)
    | SendLink(t: Tid)
    | RecvTry(t: Tid, want: nat, wait: bool)
    | RecvCopy(t: Tid)
    | RecvFree(t: Tid)
    | Fail(t: Tid)
    | Expire(t: Tid)
    | Reset
    | SetPriority(t: Tid, p: int)

  /** A sender that was woken is past the test of its message's size. */
  predicate Enabled(s: State, op: Op) {
    match op
    case SendTry(t, body, _) =>
      && body != [] && t !in s.flight && WaitSteps.MaySend(s.crowd, t)
      && (t in s.crowd.wokenSenders ==> |body| <= s.msgSize)
    case UrgentTry(t, body) => body != [] && t !in s.flight && WaitSteps.Idle(s.crowd, t)
    case SendCopy(t) => t in s.flight && s.flight[t].Sending? && !s.flight[t].copied
    case SendLink(t) => t in s.flight && s.flight[t].Sending? && s.flight[t].copied
    case RecvTry(t, want, _) => want != 0 && t !in s.flight && WaitSteps.MayReceive(s.crowd, t)
    case RecvCopy(t) => t in s.flight && s.flight[t].Receiving? && s.flight[t].got.None?
    case RecvFree(t) => t in s.flight && s.flight[t].Receiving? && s.flight[t].got.Some?
    case Fail(t) => t in s.crowd.failed
    case Expire(t) => t in s.crowd.receivers || t in s.crowd.senders
    case Reset => true
    case SetPriority(_, _) => true
  }

  /** rt_mq_send_wait up to the end of its first critical section, on entry or after a wake-up. */
  function SendTryStep(s: State, t: Tid, body: seq<byte>, wait: bool): State {
    var s1 := s.(crowd := WaitSteps.EnterSender(s.crowd, t));
    if |body| > s.msgSize then s1
    else if s.free != [] then Grab(s1, t, false, body)
    else if wait then s.(crowd := WaitSteps.BlockSender(s.crowd, t))
    else s1
  }

  function Grab(s: State, t: Tid, urgent: bool, body: seq<byte>): State
    requires s.free != []
  {
    s.(free := s.free[1..], flight := s.flight[t := Sending(s.free[0], urgent, body, false)])
  }

  /** The bytes of a message node after `body` was copied to its front. */
  function Overlay(body: seq<byte>, prior: seq<byte>): seq<byte> {
    if |body| <= |prior| then body + prior[|body|..] else body
  }

  function CopyStep(s: State, t: Tid): State
    requires t in s.flight && s.flight[t].Sending?
  {
    var f := s.flight[t];
    s.(data := if f.node < |s.data| then s.data[f.node := Overlay(f.body, s.data[f.node])] else s.data,
       flight := s.flight[t := f.(copied := true)])
  }

  function LinkStep(s: State, t: Tid): State
    requires t in s.flight && s.flight[t].Sending?
  {
    var f := s.flight[t];
    s.(queue := if f.urgent then [f.node] + s.queue else s.queue + [f.node],
       flight := s.flight - {t}, crowd := WaitSteps.WakeReceiver(s.crowd))
  }

  /** rt_mq_recv up to the end of its first critical section, on entry or after a wake-up. */
  function RecvTryStep(s: State, t: Tid, want: nat, wait: bool): State {
    var s1 := s.(crowd := WaitSteps.EnterReceiver(s.crowd, t));
    if s.queue != [] then
      s1.(queue := s.queue[1..], flight := s.flight[t := Receiving(s.queue[0], want, None)])
    else if wait then s.(crowd := WaitSteps.BlockReceiver(s.crowd, t))
    else s1
  }

  /** What rt_memcpy moves to the receiver's buffer of `want` bytes. */
  function Taken(s: State, node: nat, want: nat): seq<byte> {
    var bytes := if node < |s.data| then s.data[node] else [];
    bytes[..Min(|bytes|, Min(want, s.msgSize))]
  }

  function RecvCopyStep(s: State, t: Tid): State
    requires t in s.flight && s.flight[t].Receiving?
  {
    var f := s.flight[t];
    s.(flight := s.flight[t := f.(got := Some(Taken(s, f.node, f.want)))])
  }

  function RecvFreeStep(s: State, t: Tid): State
    requires t in s.flight
  {
    s.(free := [s.flight[t].node] + s.free, flight := s.flight - {t}, crowd := WaitSteps.WakeSender(s.crowd))
  }

  /** The reset loop: the queued nodes go one by one to the front of the free list. */
  function Recycle(queue: seq<nat>, free: seq<nat>): seq<nat>
    decreases |queue|
  {
    if queue == [] then free else Recycle(queue[1..], [queue[0]] + free)
  }

  function Next(s: State, op: Op): State
    requires Enabled(s, op)
  {
    match op
    case SendTry(t, body, wait) => SendTryStep(s, t, body, wait)
    case UrgentTry(t, body) => if |body| > s.msgSize || s.free == [] then s else Grab(s, t, true, body)
    case SendCopy(t) => CopyStep(s, t)
    case SendLink(t) => LinkStep(s, t)
    case RecvTry(t, want, wait) => RecvTryStep(s, t, want, wait)
    case RecvCopy(t) => RecvCopyStep(s, t)
    case RecvFree(t) => RecvFreeStep(s, t)
    case Fail(t) => s.(crowd := WaitSteps.Fail(s.crowd, t))
    case Expire(t) => s.(crowd := WaitSteps.Expire(s.crowd, t))
    case Reset => s.(crowd := WaitSteps.ResumeAll(s.crowd), queue := [], free := Recycle(s.queue, s.free))
    case SetPriority(t, p) => s.(crowd := WaitSteps.SetPriority(s.crowd, t, p))
  }

  /** What a call returns from its first section. */
  function Result(s: State, op: Op): Err {
    match op
    case SendTry(_, body, wait) =>
      if |body| > s.msgSize then ERROR else if s.free != [] then EOK else if wait then Blocked else EFULL
    case UrgentTry(_, body) => if |body| > s.msgSize then ERROR else if s.free != [] then EOK else EFULL
    case RecvTry(_, _, wait) => if s.queue != [] then EOK else if wait then Blocked else ETIMEOUT
    case _ => EOK
  }

  // ----- What every reachable state satisfies

  ghost predicate Held(s: State, n: nat) {
    exists t :: t in s.flight && s.flight[t].node == n
  }

  /** Every node is on the free list, on the queue or held by one in-flight thread, and in one place only. */
  ghost predicate Partition(s: State) {
    && Distinct(s.free) && Distinct(s.queue)
    && (forall n :: n in s.free ==> n < |s.data| && n !in s.queue)
    && (forall n :: n in s.queue ==> n < |s.data|)
    && (forall t :: t in s.flight ==>
          s.flight[t].node < |s.data| && s.flight[t].node !in s.free && s.flight[t].node !in s.queue)
    && (forall t, u :: t in s.flight && u in s.flight && t != u ==> s.flight[t].node != s.flight[u].node)
    && (forall n :: 0 <= n < |s.data| ==> n in s.free || n in s.queue || Held(s, n))
  }

  /** A thread does one thing at a time. */
  ghost predicate ThreadsApart(s: State) {
    WaitSteps.Sound(s.crowd) && forall t :: t in s.flight ==> WaitSteps.Idle(s.crowd, t)
  }

  /** Threads wait only while the messages (or free nodes) are all left to woken threads. */
  ghost predicate NoLostWakeup(s: State) {
    WaitSteps.NoLostWakeup(s.crowd, |s.queue|, |s.free|)
  }

  /** Message nodes have the configured size, and a filled node starts with the bytes its sender gave. */
  ghost predicate Filled(s: State) {
    && (forall n :: 0 <= n < |s.data| ==> |s.data[n]| == s.msgSize)
    && (forall t :: t in s.flight && s.flight[t].Sending? ==>
          && 0 < |s.flight[t].body| <= s.msgSize
          && s.flight[t].node < |s.data|
          && (s.flight[t].copied ==> s.flight[t].body <= s.data[s.flight[t].node]))
  }

  ghost predicate Inv(s: State) {
    Partition(s) && ThreadsApart(s) && NoLostWakeup(s) && Filled(s)
  }

  /** The free list rt_mq_init builds: the last node of the pool first. */
  function Descending(n: nat): (r: seq<nat>)
    ensures |r| == n && forall i :: 0 <= i < n ==> r[i] == n - 1 - i
  {
    seq(n, i requires 0 <= i < n => n - 1 - i)
  }

  ghost predicate Initial(s: State) {
    && s.free == Descending(|s.data|) && s.queue == [] && s.flight == map[]
    && s.crowd == WaitSteps.Nobody(s.crowd.order.flag, s.crowd.order.prio)
    && (forall n :: 0 <= n < |s.data| ==> |s.data[n]| == s.msgSize)
  }

  lemma InitialInv(s: State)
    requires Initial(s)
    ensures Inv(s)
  {
    forall n | 0 <= n < |s.data| ensures n in s.free {
      assert s.free[|s.data| - 1 - n] == n;
    }
  }

  lemma {:induction false} RecycleParts(queue: seq<nat>, free: seq<nat>)
    requires Distinct(queue) && Distinct(free) && forall n :: n in queue ==> n !in free
    ensures Distinct(Recycle(queue, free))
    ensures forall n :: n in Recycle(queue, free) <==> n in queue || n in free
    decreases |queue|
  {
    if queue != [] {
      ConsDistinct(queue[0], free);
      assert queue == [queue[0]] + queue[1..];
      RecycleParts(queue[1..], [queue[0]] + free);
    }
  }

  /** A node a flying thread still holds, under the same thread, stays held. */
  lemma StillHeld(s: State, s': State, n: nat, gone: set<Tid>)
    requires Held(s, n)
    requires forall t :: t in s.flight && t !in gone ==> t in s'.flight && s'.flight[t].node == s.flight[t].node
    requires forall t :: t in s.flight && t in gone ==> s.flight[t].node != n
    ensures Held(s', n)
  {
    var t :| t in s.flight && s.flight[t].node == n;
    assert s'.flight[t].node == n;
  }

  /** `t` takes the first node of the free list or of the queue into flight. */
  lemma TakeKeepsPartition(s: State, s': State, t: Tid)
    requires Partition(s) && t !in s.flight && |s'.data| == |s.data|
    requires t in s'.flight && s'.flight == s.flight[t := s'.flight[t]]
    requires || (s.free != [] && s'.free == s.free[1..] && s'.queue == s.queue && s'.flight[t].node == s.free[0])
             || (s.queue != [] && s'.queue == s.queue[1..] && s'.free == s.free && s'.flight[t].node == s.queue[0])
    ensures Partition(s')
  {
    var m := s'.flight[t].node;
    if s'.free == s.free { HeadTail(s.queue); } else { HeadTail(s.free); }
    forall n | 0 <= n < |s'.data| ensures n in s'.free || n in s'.queue || Held(s', n) {
      if n != m && n !in s.free && n !in s.queue { StillHeld(s, s', n, {}); }
    }
  }

  /** `t` gives its node back to an end of one of the two lists. */
  lemma GiveKeepsPartition(s: State, s': State, t: Tid)
    requires Partition(s) && t in s.flight && |s'.data| == |s.data| && s'.flight == s.flight - {t}
    requires var m := s.flight[t].node;
             || (s'.free == [m] + s.free && s'.queue == s.queue)
             || (s'.free == s.free && (s'.queue == [m] + s.queue || s'.queue == s.queue + [m]))
    ensures Partition(s')
  {
    var m := s.flight[t].node;
    ConsDistinct(m, s.free);
    ConsDistinct(m, s.queue);
    SnocDistinct(s.queue, m);
    assert forall n :: n in s'.free || n in s'.queue <==> n in s.free || n in s.queue || n == m;
    forall n | 0 <= n < |s'.data| ensures n in s'.free || n in s'.queue || Held(s', n) {
      if n != m && n !in s.free && n !in s.queue { StillHeld(s, s', n, {t}); }
    }
  }

  /** No node changes hands, although the order of the lists may change. */
  lemma SameNodesKeepPartition(s: State, s': State)
    requires Partition(s) && |s'.data| == |s.data| && Distinct(s'.free) && Distinct(s'.queue)
    requires forall n :: n in s'.free || n in s'.queue <==> n in s.free || n in s.queue
    requires forall n :: n in s'.free ==> n !in s'.queue
    requires s'.flight.Keys == s.flight.Keys
    requires forall t :: t in s.flight ==> s'.flight[t].node == s.flight[t].node
    ensures Partition(s')
  {
    forall n | 0 <= n < |s'.data| ensures n in s'.free || n in s'.queue || Held(s', n) {
      if n !in s.free && n !in s.queue { StillHeld(s, s', n, {}); }
    }
  }

  lemma StepPartition(s: State, op: Op)
    requires Inv(s) && Enabled(s, op)
    ensures Partition(Next(s, op))
  {
    var s' := Next(s, op);
    match op
    case SendTry(t, body, wait) =>
      if s.free != [] && |body| <= s.msgSize {
        TakeKeepsPartition(s, s', t);
      } else {
        SameNodesKeepPartition(s, s');
      }
    case UrgentTry(t, body) =>
      if s.free != [] && |body| <= s.msgSize { TakeKeepsPartition(s, s', t); }
    case SendLink(t) => GiveKeepsPartition(s, s', t);
    case RecvTry(t, want, wait) =>
      if s.queue != [] {
        TakeKeepsPartition(s, s', t);
      } else {
        SameNodesKeepPartition(s, s');
      }
    case RecvFree(t) => GiveKeepsPartition(s, s', t);
    case Reset =>
      RecycleParts(s.queue, s.free);
      SameNodesKeepPartition(s, s');
    case _ => SameNodesKeepPartition(s, s');
  }

  lemma FewerNeeded(c: WaitSteps.Crowd, mails: int, slots: int)
    ensures WaitSteps.NoLostWakeup(c, mails, -1) ==> WaitSteps.NoLostWakeup(c, mails, 0)
    ensures WaitSteps.NoLostWakeup(c, -1, slots) ==> WaitSteps.NoLostWakeup(c, 0, slots)
    ensures WaitSteps.NoLostWakeup(c, mails, slots) ==>
      WaitSteps.NoLostWakeup(c, mails - 1, slots) && WaitSteps.NoLostWakeup(c, mails, slots - 1)
  {
  }

  lemma SendTryThreads(s: State, t: Tid, body: seq<byte>, wait: bool)
    requires ThreadsApart(s) && NoLostWakeup(s) && Enabled(s, SendTry(t, body, wait))
    ensures ThreadsApart(SendTryStep(s, t, body, wait)) && NoLostWakeup(SendTryStep(s, t, body, wait))
  {
    hide WaitSteps.Sound, WaitSteps.NoLostWakeup;
    var c, mails, slots := s.crowd, |s.queue|, |s.free|;
    WaitSteps.EnterSenderKeeps(c, t, mails, slots);
    FewerNeeded(WaitSteps.EnterSender(c, t), mails, 0);
    if |body| > s.msgSize {
      IdleEnters(c, t);
    } else if s.free == [] && wait {
      WaitSteps.BlockSenderKeeps(c, t, mails);
    } else if s.free != [] {
      TakenIdle(c, t);
    }
  }

  lemma RecvTryThreads(s: State, t: Tid, want: nat, wait: bool)
    requires ThreadsApart(s) && NoLostWakeup(s) && Enabled(s, RecvTry(t, want, wait))
    ensures ThreadsApart(RecvTryStep(s, t, want, wait)) && NoLostWakeup(RecvTryStep(s, t, want, wait))
  {
    hide WaitSteps.Sound, WaitSteps.NoLostWakeup;
    var c, mails, slots := s.crowd, |s.queue|, |s.free|;
    WaitSteps.EnterReceiverKeeps(c, t, mails, slots);
    FewerNeeded(WaitSteps.EnterReceiver(c, t), 0, slots);
    if s.queue != [] {
      TakenIdle(c, t);
    } else if wait {
      WaitSteps.BlockReceiverKeeps(c, t, slots);
    }
  }

  /** A thread that enters is in no other place. */
  lemma TakenIdle(c: WaitSteps.Crowd, t: Tid)
    requires WaitSteps.Sound(c)
    ensures WaitSteps.MaySend(c, t) ==> WaitSteps.Idle(WaitSteps.EnterSender(c, t), t)
    ensures WaitSteps.MayReceive(c, t) ==> WaitSteps.Idle(WaitSteps.EnterReceiver(c, t), t)
  {
  }

  lemma IdleEnters(c: WaitSteps.Crowd, t: Tid)
    requires WaitSteps.Idle(c, t)
    ensures WaitSteps.EnterSender(c, t) == c
  {
    assert c.wokenSenders - {t} == c.wokenSenders;
  }

  /** A thread in flight stays out of the crowd. */
  lemma CrowdIdle(c: WaitSteps.Crowd, t: Tid, u: Tid, p: int)
    requires WaitSteps.Idle(c, u)
    ensures WaitSteps.Idle(WaitSteps.WakeReceiver(c), u) && WaitSteps.Idle(WaitSteps.WakeSender(c), u)
    ensures WaitSteps.Idle(WaitSteps.Fail(c, t), u) && WaitSteps.Idle(WaitSteps.ResumeAll(c), u)
    ensures WaitSteps.Idle(WaitSteps.SetPriority(c, t, p), u)
    ensures t != u ==> WaitSteps.Idle(WaitSteps.Expire(c, t), u)
  {
  }

  lemma StepThreads(s: State, op: Op)
    requires Inv(s) && Enabled(s, op)
    ensures ThreadsApart(Next(s, op)) && NoLostWakeup(Next(s, op))
  {
    hide WaitSteps.Sound, WaitSteps.NoLostWakeup, WaitSteps.Idle, Partition, Filled;
    var c, mails, slots := s.crowd, |s.queue|, |s.free|;
    match op
    case SendTry(t, body, wait) => SendTryThreads(s, t, body, wait);
    case UrgentTry(t, body) => UrgentThreads(s, t, body);
    case SendCopy(t) =>
    case SendLink(t) =>
      WaitSteps.WakeReceiverKeeps(c, mails + 1, slots);
      forall u | u in s.flight ensures WaitSteps.Idle(WaitSteps.WakeReceiver(c), u) { CrowdIdle(c, t, u, 0); }
    case RecvTry(t, want, wait) => RecvTryThreads(s, t, want, wait);
    case RecvCopy(t) =>
    case RecvFree(t) =>
      WaitSteps.WakeSenderKeeps(c, mails, slots + 1);
      forall u | u in s.flight ensures WaitSteps.Idle(WaitSteps.WakeSender(c), u) { CrowdIdle(c, t, u, 0); }
    case Fail(t) =>
      WaitSteps.QuietKeeps(c, t, 0, mails, slots);
      forall u | u in s.flight ensures WaitSteps.Idle(WaitSteps.Fail(c, t), u) { CrowdIdle(c, t, u, 0); }
    case Expire(t) => ExpireThreads(s, t);
    case Reset =>
      WaitSteps.ResumeAllKeeps(c, 0, |Next(s, op).free|);
      forall u | u in s.flight ensures WaitSteps.Idle(WaitSteps.ResumeAll(c), u) { CrowdIdle(c, 0, u, 0); }
    case SetPriority(t, p) =>
      WaitSteps.QuietKeeps(c, t, p, mails, slots);
      forall u | u in s.flight ensures WaitSteps.Idle(WaitSteps.SetPriority(c, t, p), u) { CrowdIdle(c, t, u, p); }
  }

  lemma UrgentThreads(s: State, t: Tid, body: seq<byte>)
    requires ThreadsApart(s) && NoLostWakeup(s) && Enabled(s, UrgentTry(t, body))
    ensures ThreadsApart(Next(s, UrgentTry(t, body))) && NoLostWakeup(Next(s, UrgentTry(t, body)))
  {
    hide WaitSteps.Sound;
    FewerNeeded(s.crowd, |s.queue|, |s.free|);
  }

  lemma ExpireThreads(s: State, t: Tid)
    requires ThreadsApart(s) && NoLostWakeup(s) && Enabled(s, Expire(t))
    ensures ThreadsApart(Next(s, Expire(t))) && NoLostWakeup(Next(s, Expire(t)))
  {
    hide WaitSteps.Sound, WaitSteps.NoLostWakeup;
    WaitSteps.ExpireKeeps(s.crowd, t, |s.queue|, |s.free|);
    forall u | u in s.flight ensures WaitSteps.Idle(WaitSteps.Expire(s.crowd, t), u) {
      assert WaitSteps.Idle(s.crowd, u);
      CrowdIdle(s.crowd, t, u, 0);
    }
  }

  lemma StepFilled(s: State, op: Op)
    requires Inv(s) && Enabled(s, op)
    ensures Filled(Next(s, op))
  {
    hide ThreadsApart, NoLostWakeup, Recycle, Held;
    assert s.free != [] ==> s.free[0] in s.free;
  }

  /** Every step of every thread keeps the invariant. */
  lemma StepInv(s: State, op: Op)
    requires Inv(s) && Enabled(s, op)
    ensures Inv(Next(s, op))
  {
    StepPartition(s, op);
    StepThreads(s, op);
    StepFilled(s, op);
  }

  // ----- What the calls return

  /** A call that goes on has a node in hand, and only that; one that blocks is on its wait list. */
  lemma TryExactly(s: State, op: Op)
    requires Inv(s) && Enabled(s, op) && (op.SendTry? || op.UrgentTry? || op.RecvTry?)
    ensures var s' := Next(s, op);
            && (Result(s, op) == EOK <==> op.t in s'.flight)
            && (Result(s, op) == Blocked <==> op.t in s'.crowd.receivers || op.t in s'.crowd.senders)
            && (forall u :: u in s.flight ==> u in s'.flight && s'.flight[u] == s.flight[u])
            && (forall u :: u in s'.flight && u != op.t ==> u in s.flight)
  {
    hide Partition, Filled, NoLostWakeup;
  }

  // ----- The order of service

  /** A change of priority lets the thread, if it waits, fit between its neighbours. */
  ghost predicate Calm(s: State, op: Op) {
    op.SetPriority? ==> WaitSteps.Fits(s.crowd, op.t, op.p)
  }

  /** A step keeps both wait lists in the order of service if and only if it is calm. */
  lemma StepInLines(s: State, op: Op)
    requires Inv(s) && Enabled(s, op) && WaitSteps.InLines(s.crowd)
    ensures WaitSteps.InLines(Next(s, op).crowd) <==> Calm(s, op)
  {
    hide WaitSteps.Fits, InLine, Partition, Filled, NoLostWakeup;
    match op
    case SendTry(t, _, _) => WaitSteps.BlockInLines(s.crowd, t);
    case RecvTry(t, _, _) => WaitSteps.BlockInLines(s.crowd, t);
    case SendLink(t) => WaitSteps.LeaveInLines(s.crowd, t);
    case RecvFree(t) => WaitSteps.LeaveInLines(s.crowd, t);
    case Expire(t) => WaitSteps.LeaveInLines(s.crowd, t);
    case Reset => WaitSteps.LeaveInLines(s.crowd, 0);
    case SetPriority(t, p) => WaitSteps.SetPriorityInLines(s.crowd, t, p);
    case _ =>
  }
}
