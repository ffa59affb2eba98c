/** The threads around a mailbox or a message queue: those that wait on its two lists, and those that were resumed and
    have not run yet. */
module WaitSteps {
  import opened Machine
  import opened WaitList
  import opened ServiceOrder
  import opened ThreadError

  /** `wokenReceivers` and `wokenSenders` were resumed to try again, `failed` by a timeout or a reset. */
  datatype Crowd = Crowd(
    order: Order,
    receivers: seq<Tid>,
    senders: seq<Tid>,
    wokenReceivers: set<Tid>,
    wokenSenders: set<Tid>,
    failed: set<Tid>,
    error: Errors)

  function Nobody(flag: Flag, prio: Priorities): Crowd {
    Crowd(Order(flag, prio, map[], 0), [], [], {}, {}, {}, map[])
  }

  predicate Idle(c: Crowd, t: Tid) {
    && t !in c.receivers && t !in c.senders
    && t !in c.wokenReceivers && t !in c.wokenSenders && t !in c.failed
  }

  predicate MayReceive(c: Crowd, t: Tid) { Idle(c, t) || t in c.wokenReceivers }

  predicate MaySend(c: Crowd, t: Tid) { Idle(c, t) || t in c.wokenSenders }

  // ----- What happens to the threads

  /** A receiver starts, or goes on after a wake-up. */
  function EnterReceiver(c: Crowd, t: Tid): Crowd {
    c.(wokenReceivers := c.wokenReceivers - {t})
  }

  function EnterSender(c: Crowd, t: Tid): Crowd {
    c.(wokenSenders := c.wokenSenders - {t})
  }

  function BlockReceiver(c: Crowd, t: Tid): Crowd {
    EnterReceiver(c, t).(receivers := Place(c.order, c.receivers, t), order := Draw(c.order, t),
                         error := c.error[t := EOK])
  }

  function BlockSender(c: Crowd, t: Tid): Crowd {
    EnterSender(c, t).(senders := Place(c.order, c.senders, t), order := Draw(c.order, t),
                       error := c.error[t := EOK])
  }

  /** The first receiver, if any waits, is resumed. */
  function WakeReceiver(c: Crowd): Crowd {
    if c.receivers == [] then c
    else c.(receivers := c.receivers[1..], wokenReceivers := c.wokenReceivers + {c.receivers[0]})
  }

  function WakeSender(c: Crowd): Crowd {
    if c.senders == [] then c
    else c.(senders := c.senders[1..], wokenSenders := c.wokenSenders + {c.senders[0]})
  }

  /** rt_thread_timeout on a thread that waits. */
  function Expire(c: Crowd, t: Tid): Crowd {
    c.(receivers := Without(c.receivers, t), senders := Without(c.senders, t),
       error := c.error[t := ETIMEOUT], failed := c.failed + {t})
  }

  /** rt_ipc_list_resume_all on both lists. */
  function ResumeAll(c: Crowd): Crowd {
    c.(receivers := [], senders := [], error := FailAll(FailAll(c.error, c.receivers), c.senders),
       failed := c.failed + SetOf(c.receivers) + SetOf(c.senders))
  }

  /** A thread resumed with an error returns it to its caller. */
  function Fail(c: Crowd, t: Tid): Crowd {
    c.(failed := c.failed - {t})
  }

  function SetPriority(c: Crowd, t: Tid, p: int): Crowd {
    c.(order := ServiceOrder.SetPriority(c.order, t, p))
  }

  // ----- What they keep

  /** A thread does one thing at a time. */
  ghost predicate Apart(c: Crowd) {
    && Distinct(c.receivers) && Distinct(c.senders)
    && (forall t :: t in c.receivers ==> t !in c.senders && t !in c.wokenReceivers && t !in c.wokenSenders)
    && (forall t :: t in c.senders ==> t !in c.wokenReceivers && t !in c.wokenSenders)
    && (forall t :: t in c.wokenReceivers ==> t !in c.wokenSenders)
    && (forall t :: t in c.failed ==>
          t !in c.receivers && t !in c.senders && t !in c.wokenReceivers && t !in c.wokenSenders)
  }

  /** Threads resumed to try again have error RT_EOK, the others that were resumed have not. */
  ghost predicate Told(c: Crowd) {
    && (forall t :: t in c.failed ==> ErrorOf(c.error, t) != EOK)
    && (forall t :: t in c.wokenReceivers || t in c.wokenSenders || t in c.receivers || t in c.senders ==>
          ErrorOf(c.error, t) == EOK)
  }

  ghost predicate Sound(c: Crowd) {
    Apart(c) && Told(c) && Drawn(c.order, c.receivers) && Drawn(c.order, c.senders)
  }

  /** Receivers wait only while all of `mails` are left to woken receivers, senders only while all of `slots` are left
      to woken senders. */
  ghost predicate NoLostWakeup(c: Crowd, mails: int, slots: int) {
    && (c.receivers != [] ==> mails <= |c.wokenReceivers|)
    && (c.senders != [] ==> slots <= |c.wokenSenders|)
  }

  lemma EnterReceiverKeeps(c: Crowd, t: Tid, mails: int, slots: int)
    requires Sound(c) && NoLostWakeup(c, mails, slots)
    ensures Sound(EnterReceiver(c, t)) && NoLostWakeup(EnterReceiver(c, t), mails - 1, slots)
  {
  }

  lemma EnterSenderKeeps(c: Crowd, t: Tid, mails: int, slots: int)
    requires Sound(c) && NoLostWakeup(c, mails, slots)
    ensures Sound(EnterSender(c, t)) && NoLostWakeup(EnterSender(c, t), mails, slots - 1)
  {
  }

  lemma BlockReceiverKeeps(c: Crowd, t: Tid, slots: int)
    requires Sound(c) && MayReceive(c, t) && NoLostWakeup(c, 0, slots)
    ensures Sound(BlockReceiver(c, t)) && NoLostWakeup(BlockReceiver(c, t), 0, slots)
  {
    hide Apart, Told;
    BlockReceiverApart(c, t);
    BlockReceiverTold(c, t);
  }

  lemma BlockReceiverApart(c: Crowd, t: Tid)
    requires Apart(c) && MayReceive(c, t)
    ensures Apart(BlockReceiver(c, t)) && t !in c.receivers
  {
    hide Distinct, Draw;
    SuspendDistinct(c.order.flag, c.receivers, c.order.prio, t);
  }

  lemma BlockReceiverTold(c: Crowd, t: Tid)
    requires Apart(c) && Told(c) && MayReceive(c, t)
    ensures Told(BlockReceiver(c, t))
  {
    hide Distinct, Draw;
  }

  lemma BlockSenderKeeps(c: Crowd, t: Tid, mails: int)
    requires Sound(c) && MaySend(c, t) && NoLostWakeup(c, mails, 0)
    ensures Sound(BlockSender(c, t)) && NoLostWakeup(BlockSender(c, t), mails, 0)
  {
    hide Apart, Told;
    BlockSenderApart(c, t);
    BlockSenderTold(c, t);
  }

  lemma BlockSenderApart(c: Crowd, t: Tid)
    requires Apart(c) && MaySend(c, t)
    ensures Apart(BlockSender(c, t)) && t !in c.senders
  {
    hide Distinct, Draw;
    SuspendDistinct(c.order.flag, c.senders, c.order.prio, t);
  }

  lemma BlockSenderTold(c: Crowd, t: Tid)
    requires Apart(c) && Told(c) && MaySend(c, t)
    ensures Told(BlockSender(c, t))
  {
    hide Distinct, Draw;
  }

  /** One more mail is made up for by one more woken receiver. */
  lemma WakeReceiverKeeps(c: Crowd, mails: int, slots: int)
    requires Sound(c) && NoLostWakeup(c, mails - 1, slots)
    ensures Sound(WakeReceiver(c)) && NoLostWakeup(WakeReceiver(c), mails, slots)
  {
    if c.receivers != [] { HeadTail(c.receivers); }
  }

  lemma WakeSenderKeeps(c: Crowd, mails: int, slots: int)
    requires Sound(c) && NoLostWakeup(c, mails, slots - 1)
    ensures Sound(WakeSender(c)) && NoLostWakeup(WakeSender(c), mails, slots)
  {
    if c.senders != [] { HeadTail(c.senders); }
  }

  lemma ExpireKeeps(c: Crowd, t: Tid, mails: int, slots: int)
    requires Sound(c) && (t in c.receivers || t in c.senders) && NoLostWakeup(c, mails, slots)
    ensures Sound(Expire(c, t)) && NoLostWakeup(Expire(c, t), mails, slots)
  {
    hide Distinct;
    WithoutDistinct(c.receivers, t);
    WithoutDistinct(c.senders, t);
  }

  lemma ResumeAllKeeps(c: Crowd, mails: int, slots: int)
    requires Sound(c)
    ensures Sound(ResumeAll(c)) && NoLostWakeup(ResumeAll(c), mails, slots)
  {
    FailAllEverywhere(c.error, c.receivers);
    FailAllEverywhere(FailAll(c.error, c.receivers), c.senders);
  }

  lemma QuietKeeps(c: Crowd, t: Tid, p: int, mails: int, slots: int)
    requires Sound(c) && NoLostWakeup(c, mails, slots)
    ensures Sound(Fail(c, t)) && NoLostWakeup(Fail(c, t), mails, slots)
    ensures Sound(SetPriority(c, t, p)) && NoLostWakeup(SetPriority(c, t, p), mails, slots)
  {
  }

  /** A resumed thread finds RT_EOK just if it may try again. */
  lemma AwakeExactly(c: Crowd, t: Tid)
    requires Sound(c) && (t in c.wokenReceivers || t in c.wokenSenders || t in c.failed)
    ensures ErrorOf(c.error, t) == EOK <==> t in c.wokenReceivers || t in c.wokenSenders
  {
  }

  /** A thread taken off its list by a wake-up, a timeout or a reset finds that in its error. */
  lemma TakenOffErrors(c: Crowd, t: Tid, u: Tid)
    requires Sound(c)
    ensures u in c.receivers && u !in WakeReceiver(c).receivers ==>
      u in WakeReceiver(c).wokenReceivers && ErrorOf(WakeReceiver(c).error, u) == EOK
    ensures u in c.senders && u !in WakeSender(c).senders ==>
      u in WakeSender(c).wokenSenders && ErrorOf(WakeSender(c).error, u) == EOK
    ensures (u in c.receivers && u !in Expire(c, t).receivers) || (u in c.senders && u !in Expire(c, t).senders) ==>
      u == t && u in Expire(c, t).failed && ErrorOf(Expire(c, t).error, u) == ETIMEOUT
    ensures u in c.receivers || u in c.senders ==>
      u in ResumeAll(c).failed && ErrorOf(ResumeAll(c).error, u) == ERROR
    ensures t !in Expire(c, t).receivers && t !in Expire(c, t).senders
    ensures ResumeAll(c).receivers == ResumeAll(c).senders == []
  {
    WithoutDistinct(c.receivers, t);
    WithoutDistinct(c.senders, t);
    if c.receivers != [] { HeadTail(c.receivers); }
    if c.senders != [] { HeadTail(c.senders); }
    FailAllEverywhere(c.error, c.receivers);
    FailAllEverywhere(FailAll(c.error, c.receivers), c.senders);
  }

  /** The error of a thread that failed stays until it runs. */
  lemma FailedErrorsStay(c: Crowd, t: Tid, u: Tid, p: int)
    requires Sound(c) && u in c.failed && t !in c.failed
    ensures ErrorOf(BlockReceiver(c, t).error, u) == ErrorOf(BlockSender(c, t).error, u) == ErrorOf(c.error, u)
    ensures ErrorOf(WakeReceiver(c).error, u) == ErrorOf(WakeSender(c).error, u) == ErrorOf(c.error, u)
    ensures ErrorOf(Expire(c, t).error, u) == ErrorOf(ResumeAll(c).error, u) == ErrorOf(c.error, u)
    ensures ErrorOf(SetPriority(c, t, p).error, u) == ErrorOf(c.error, u)
  {
    FailAllEverywhere(c.error, c.receivers);
    FailAllEverywhere(FailAll(c.error, c.receivers), c.senders);
  }

  // ----- The order of service

  ghost predicate InLines(c: Crowd) {
    InLine(c.order, c.receivers) && InLine(c.order, c.senders)
  }

  /** With priority `p` the thread, if it waits, still fits between its neighbours. */
  ghost predicate Fits(c: Crowd, t: Tid, p: int) {
    FitsBetween(c.order, c.receivers, t, p) && FitsBetween(c.order, c.senders, t, p)
  }

  lemma BlockInLines(c: Crowd, t: Tid)
    requires Sound(c) && InLines(c) && t !in c.receivers && t !in c.senders
    ensures InLines(BlockReceiver(c, t)) && InLines(BlockSender(c, t))
  {
    hide InLine;
    SuspendInLine(c.order, c.receivers, t);
    SuspendInLine(c.order, c.senders, t);
    OtherInLine(c.order, c.receivers, t);
    OtherInLine(c.order, c.senders, t);
  }

  lemma LeaveInLines(c: Crowd, t: Tid)
    requires InLines(c)
    ensures InLines(WakeReceiver(c)) && InLines(WakeSender(c)) && InLines(Expire(c, t)) && InLines(ResumeAll(c))
  {
    hide InLine;
    if c.receivers != [] { TailInLine(c.order, c.receivers); }
    if c.senders != [] { TailInLine(c.order, c.senders); }
    WithoutInLine(c.order, c.receivers, t);
    WithoutInLine(c.order, c.senders, t);
    NobodyInLine(c.order);
  }

  /** A change of priority keeps both lists in the order of service if and only if the thread still fits. */
  lemma SetPriorityInLines(c: Crowd, t: Tid, p: int)
    requires Sound(c) && InLines(c)
    ensures InLines(SetPriority(c, t, p)) <==> Fits(c, t, p)
  {
    hide InLine, FitsBetween;
    SetPriorityInLine(c.order, c.receivers, t, p);
    SetPriorityInLine(c.order, c.senders, t, p);
  }
}
