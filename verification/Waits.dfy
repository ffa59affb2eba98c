/** The two wait lists of a mailbox or a message queue, suspend_thread for receivers and suspend_sender_thread, as
    rings in the same thread nodes. Each method is proved to be the change of the crowd of the same name. */
module Waits {
  import opened Machine
  import opened WaitList
  import opened ThreadError
  import opened ListService
  import opened WaitSteps

  class WaitLists {
    const flag: Flag
    const recvList: nat             // the address of suspend_thread
    const sendList: nat             // the address of suspend_sender_thread
    const lists: Lists
    var prio: Priorities            // current_priority of the threads
    var error: Errors               // error of the threads
    ghost var receivers: seq<Tid>
    ghost var senders: seq<Tid>
    ghost var history: Crowd        // carries the parts that only the proof needs

    ghost function View(): Crowd
      reads this
    {
      history.(order := history.order.(flag := flag, prio := prio), receivers := receivers, senders := senders,
               error := error)
    }

    ghost predicate Linked()
      reads this, lists
    {
      lists.AreRings(recvList, receivers, sendList, senders)
    }

    constructor (mode: Flag, head: nat, senderHead: nat, priorities: Priorities)
      requires head != senderHead
      ensures Linked() && View() == Nobody(mode, priorities) && fresh(lists)
      ensures recvList == head && sendList == senderHead
    {
      flag, recvList, sendList, prio, error := mode, head, senderHead, priorities, map[];
      lists := new Lists();
      receivers, senders, history := [], [], Nobody(mode, priorities);
      new;
      lists.Init(recvList);
      lists.Init(sendList);
    }

    /** A thread is none of the list heads. */
    predicate IsThread(t: Tid) { t != recvList && t != sendList }

    /** rt_ipc_list_suspend on the receivers' list, with the thread's error reset. */
    method BlockReceiver(t: Tid)
      requires Linked() && IsThread(t) && t !in receivers && t !in senders
      modifies this, lists
      ensures Linked() && View() == WaitSteps.BlockReceiver(old(View()), t)
    {
      ghost var c := WaitSteps.BlockReceiver(View(), t);
      error := error[t := EOK];
      lists.SuspendOnOneOf(recvList, t, flag, prio, receivers, sendList, senders);
      receivers := Suspend(flag, receivers, prio, t);
      history := c;
    }

    /** rt_ipc_list_suspend on the senders' list, with the thread's error reset. */
    method BlockSender(t: Tid)
      requires Linked() && IsThread(t) && t !in receivers && t !in senders
      modifies this, lists
      ensures Linked() && View() == WaitSteps.BlockSender(old(View()), t)
    {
      ghost var c := WaitSteps.BlockSender(View(), t);
      error := error[t := EOK];
      lists.SuspendOnOneOf(sendList, t, flag, prio, senders, recvList, receivers);
      senders := Suspend(flag, senders, prio, t);
      history := c;
    }

    /** A resumed receiver goes on. */
    ghost method EnterReceiver(t: Tid)
      requires Linked()
      modifies this`history
      ensures Linked() && View() == WaitSteps.EnterReceiver(old(View()), t)
    {
      history := WaitSteps.EnterReceiver(View(), t);
    }

    /** A resumed sender goes on. */
    ghost method EnterSender(t: Tid)
      requires Linked()
      modifies this`history
      ensures Linked() && View() == WaitSteps.EnterSender(old(View()), t)
    {
      history := WaitSteps.EnterSender(View(), t);
    }

    /** Resumes the first receiver, if any waits. */
    method WakeReceiver()
      requires Linked()
      modifies this, lists
      ensures Linked() && View() == WaitSteps.WakeReceiver(old(View()))
    {
      ghost var c := WaitSteps.WakeReceiver(View());
      var empty := lists.IsEmpty(recvList, receivers);
      if !empty {
        lists.ResumeFirstOfOne(recvList, receivers, sendList, senders);
        receivers := receivers[1..];
      }
      history := c;
    }

    /** Resumes the first sender, if any waits. */
    method WakeSender()
      requires Linked()
      modifies this, lists
      ensures Linked() && View() == WaitSteps.WakeSender(old(View()))
    {
      ghost var c := WaitSteps.WakeSender(View());
      var empty := lists.IsEmpty(sendList, senders);
      if !empty {
        lists.ResumeFirstOfOne(sendList, senders, recvList, receivers);
        senders := senders[1..];
      }
      history := c;
    }

    /** What a resumed thread does first: it goes on just if its error is RT_EOK, and returns the error otherwise. */
    method Awake(t: Tid) returns (r: Err)
      requires Linked() && Sound(View())
      requires t in View().wokenReceivers || t in View().wokenSenders || t in View().failed
      modifies this`history
      ensures Linked() && r == ErrorOf(error, t)
      ensures r == EOK <==> t in old(View()).wokenReceivers || t in old(View()).wokenSenders
      ensures View() == if r == EOK then old(View()) else WaitSteps.Fail(old(View()), t)
    {
      AwakeExactly(View(), t);
      r := ErrorOf(error, t);
      if r != EOK {
        history := WaitSteps.Fail(View(), t);
      }
    }

    /** rt_thread_timeout on a thread of either list. */
    method Expire(t: Tid)
      requires Linked() && (t in receivers || t in senders)
      modifies this, lists
      ensures Linked() && View() == WaitSteps.Expire(old(View()), t)
    {
      ghost var c := WaitSteps.Expire(View(), t);
      error := error[t := ETIMEOUT];
      lists.RemoveFromEither(t, recvList, receivers, sendList, senders);
      receivers, senders := Without(receivers, t), Without(senders, t);
      history := c;
    }

    /** rt_ipc_list_resume_all on both lists. */
    method ResumeAll()
      requires Linked()
      modifies this, lists
      ensures Linked() && View() == WaitSteps.ResumeAll(old(View()))
    {
      ghost var c := WaitSteps.ResumeAll(View());
      error := lists.ResumeAllOfBoth(recvList, sendList, error, receivers, senders);
      receivers, senders := [], [];
      history := c;
    }

    /** rt_thread_control(RT_THREAD_CTRL_CHANGE_PRIORITY): the lists are not sorted again. */
    method SetPriority(t: Tid, p: int)
      requires Linked()
      modifies this`prio
      ensures Linked() && View() == WaitSteps.SetPriority(old(View()), t, p)
    {
      prio := prio[t := p];
    }
  }
}
