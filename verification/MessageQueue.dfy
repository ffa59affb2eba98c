/**
 rt_messagequeue with its pointers: singly linked message nodes, a head, a tail and a free pointer.
 Each method is one critical section (or one unprotected copy) of rt_mq_send_wait, rt_mq_urgent,
 rt_mq_recv or rt_mq_control, and is proved to be the step of the same name.
 */
module MessageQueue {
  import opened Machine
  import opened WaitList
  import opened ThreadError
  import opened Waits
  import WaitSteps
  import opened MessageQueueSteps

  const NULL: int := -1

  /** `first` points to a null-terminated chain through exactly the nodes of `s`. */
  ghost predicate Chain(next: seq<int>, first: int, s: seq<nat>)
    decreases |s|
  {
    if s == [] then first == NULL
    else first == s[0] < |next| && Chain(next, next[first], s[1..])
  }

  lemma {:induction false} ChainFrame(next: seq<int>, first: int, s: seq<nat>, n: nat, v: int)
    requires Chain(next, first, s) && n < |next| && n !in s
    ensures Chain(next[n := v], first, s)
    decreases |s|
  {
    if s != [] {
      assert s == [s[0]] + s[1..];
      ChainFrame(next, next[first], s[1..], n, v);
    }
  }

  lemma ChainPush(next: seq<int>, first: int, s: seq<nat>, n: nat)
    requires Chain(next, first, s) && n < |next| && n !in s
    ensures Chain(next[n := first], n, [n] + s)
  {
    ChainFrame(next, first, s, n, first);
    assert ([n] + s)[1..] == s;
  }

  /** Hanging a node that ends its own chain behind the last node of another. */
  lemma {:induction false} ChainAppend(next: seq<int>, first: int, s: seq<nat>, n: nat)
    requires Chain(next, first, s) && n < |next| && n !in s && Distinct(s) && next[n] == NULL
    ensures s == [] ==> Chain(next, n, [n])
    ensures s != [] ==> s[|s| - 1] < |next| && Chain(next[s[|s| - 1] := n], first, s + [n])
    decreases |s|
  {
    if |s| == 1 {
      assert (s + [n])[1..] == [n];
      assert Chain(next[s[0] := n], n, [n]);
    } else if s != [] {
      HeadTail(s);
      assert s[1..][|s| - 2] == s[|s| - 1];
      ChainAppend(next, next[first], s[1..], n);
      assert (s + [n])[1..] == s[1..] + [n];
    }
  }

  /** How many nodes, each a message behind a pointer of 4 bytes, a pool has room for. */
  function Nodes(pool_size: nat, size: nat): (n: nat)
    ensures n * (size + 4) <= pool_size < (n + 1) * (size + 4)
  {
    pool_size / (size + 4)
  }

  class Queue {
    const msgSize: nat
    const next: array<int>
    const pool: array<seq<byte>>
    const waits: WaitLists
    var head: int
    var tail: int
    var free: int
    var entry: nat
    var flight: map<Tid, Flight>    // the local variable `msg` of the calls in progress
    ghost var freeList: seq<nat>
    ghost var queueList: seq<nat>

    ghost function View(): State
      reads this, pool, waits
    {
      State(msgSize, pool[..], freeList, queueList, flight, waits.View())
    }

    ghost predicate Linked()
      reads this, next, pool, waits, waits.lists
    {
      Chained() && waits.Linked()
    }

    ghost predicate Chained()
      reads this, next, pool
    {
      && next.Length == pool.Length
      && Chain(next[..], free, freeList)
      && Chain(next[..], head, queueList)
      && tail == (if queueList == [] then NULL else queueList[|queueList| - 1])
      && entry == |queueList|
      && (forall t :: t in flight && flight[t].Sending? && flight[t].copied && !flight[t].urgent ==>
            flight[t].node < next.Length && next[flight[t].node] == NULL)
    }

    /** rt_mq_init: cuts the pool into nodes and chains all of them to the free list. */
    constructor (msg_size: nat, pool_size: nat, mode: Flag, listHead: nat, senderHead: nat, priorities: Priorities)
      requires listHead != senderHead
      ensures Linked() && Initial(View()) && View().crowd == WaitSteps.Nobody(mode, priorities)
      ensures msgSize == Align(msg_size) && pool.Length == Nodes(pool_size, msgSize)
      ensures fresh(next) && fresh(pool) && fresh(waits) && fresh(waits.lists)
    {
      hide Nodes, Align;
      msgSize := Align(msg_size);
      var size := Align(msg_size);
      var max := Nodes(pool_size, size);
      next := new int[max];
      var blank := seq(size, _ => 0 as byte);
      pool := new seq<byte>[max](_ => blank);
      head, tail, free, entry := NULL, NULL, NULL, 0;
      flight, freeList, queueList := map[], [], [];
      waits := new WaitLists(mode, listHead, senderHead, priorities);
      new;
      hide WaitLists.Linked, Chain, Descending;
      ChainPool();
    }

    /** The loop of rt_mq_init over the pool. */
    method ChainPool()
      requires free == NULL && freeList == [] && next.Length == pool.Length
      modifies next, this`free, this`freeList
      ensures freeList == Descending(pool.Length) && Chain(next[..], free, freeList)
    {
      for temp := 0 to next.Length
        modifies next, this`free, this`freeList
        invariant freeList == Descending(temp)
        invariant Chain(next[..], free, freeList)
      {
        ChainPush(next[..], free, freeList, temp);
        ghost var before := next[..];
        next[temp] := free;
        assert next[..] == before[temp := free];
        free := temp;
        freeList := [temp] + freeList;
        assert freeList == Descending(temp + 1);
      }
    }

    /** rt_mq_send_wait, first critical section; `wait` is false once no waiting time is left. */
    method SendTry(t: Tid, body: seq<byte>, wait: bool) returns (r: Err)
      requires Linked() && Inv(View()) && Enabled(View(), Op.SendTry(t, body, wait)) && waits.IsThread(t)
      modifies this, waits, waits.lists
      ensures Linked() && View() == Next(old(View()), Op.SendTry(t, body, wait))
      ensures r == Result(old(View()), Op.SendTry(t, body, wait))
      ensures r == if |body| > msgSize then ERROR else if old(freeList) != [] then EOK
                   else if wait then Blocked else EFULL
    {
      hide WaitLists.Linked, Partition, Filled, NoLostWakeup;
      if |body| > msgSize {
        waits.EnterSender(t);
        return ERROR;
      }
      var msg := free;
      if msg == NULL && wait {
        waits.BlockSender(t);
        return Blocked;
      }
      waits.EnterSender(t);
      if msg == NULL {
        return EFULL;
      }
      Take(t, msg, false, body);
      return EOK;
    }

    /** What a resumed thread does first: it tries again just if its error is RT_EOK, and returns the error
        otherwise. */
    method Awake(t: Tid) returns (r: Err)
      requires Linked() && Inv(View())
      requires var c := View().crowd; t in c.wokenReceivers || t in c.wokenSenders || t in c.failed
      modifies waits
      ensures Linked() && r == ErrorOf(waits.error, t)
      ensures var c := old(View()).crowd; r == EOK <==> t in c.wokenReceivers || t in c.wokenSenders
      ensures r == EOK ==> View() == old(View())
      ensures r != EOK ==> Enabled(old(View()), Op.Fail(t)) && View() == Next(old(View()), Op.Fail(t))
    {
      hide WaitLists.Linked, Partition, Filled, NoLostWakeup, WaitSteps.Sound, Chain;
      r := waits.Awake(t);
    }

    /** rt_mq_urgent, first critical section. */
    method UrgentTry(t: Tid, body: seq<byte>) returns (r: Err)
      requires Linked() && Inv(View()) && Enabled(View(), Op.UrgentTry(t, body))
      modifies this
      ensures Linked() && View() == Next(old(View()), Op.UrgentTry(t, body))
      ensures r == Result(old(View()), Op.UrgentTry(t, body))
      ensures r == if |body| > msgSize then ERROR else if old(freeList) != [] then EOK else EFULL
    {
      if |body| > msgSize {
        return ERROR;
      }
      var msg := free;
      if msg == NULL {
        return EFULL;
      }
      Take(t, msg, true, body);
      return EOK;
    }

    /** Moves the free pointer past `msg`, which the caller now holds. */
    method Take(t: Tid, msg: int, urgent: bool, body: seq<byte>)
      requires Chained() && msg == free != NULL && t !in flight
      modifies this`free, this`flight, this`freeList
      ensures Chained() && View() == Grab(old(View()), t, urgent, body)
    {
      free := next[msg];
      flight := flight[t := Sending(msg, urgent, body, false)];
      freeList := freeList[1..];
    }

    /** The unprotected part of both senders: an ordinary send also ends its node's chain. */
    method SendCopy(t: Tid)
      requires Linked() && Inv(View()) && Enabled(View(), Op.SendCopy(t))
      modifies this`flight, next, pool
      ensures Linked() && View() == Next(old(View()), Op.SendCopy(t))
    {
      Fill(t);
    }

    method Fill(t: Tid)
      requires Chained() && t in flight && flight[t].Sending?
      requires var n := flight[t].node; n < next.Length && n !in freeList && n !in queueList
      modifies this`flight, next, pool
      ensures Chained() && View() == CopyStep(old(View()), t)
    {
      ghost var s := View();
      ghost var links := next[..];
      var f := flight[t];
      if !f.urgent {
        ChainFrame(links, free, freeList, f.node, NULL);
        ChainFrame(links, head, queueList, f.node, NULL);
        next[f.node] := NULL;
        assert next[..] == links[f.node := NULL];
      }
      pool[f.node] := Overlay(f.body, pool[f.node]);
      flight := flight[t := f.(copied := true)];
      assert pool[..] == s.data[f.node := Overlay(f.body, s.data[f.node])];
    }

    /** The second critical section of rt_mq_send_wait and of rt_mq_urgent. */
    method SendLink(t: Tid)
      requires Linked() && Inv(View()) && Enabled(View(), Op.SendLink(t))
      modifies this, next, waits, waits.lists
      ensures Linked() && View() == Next(old(View()), Op.SendLink(t))
    {
      LinkAndWake(t);
    }

    method LinkAndWake(t: Tid)
      requires Linked() && t in flight && flight[t].Sending? && flight[t].copied
      requires var n := flight[t].node; n < next.Length && n !in freeList && n !in queueList
      requires Distinct(queueList) && forall n :: n in queueList ==> n !in freeList
      requires forall u :: u in flight ==> flight[u].node !in queueList
      requires forall u :: u in flight && u != t ==> flight[u].node != flight[t].node
      modifies this, next, waits, waits.lists
      ensures Linked() && View() == LinkStep(old(View()), t)
    {
      if flight[t].urgent {
        LinkFirst(t);
      } else {
        LinkLast(t);
      }
      waits.WakeReceiver();
    }

    method LinkFirst(t: Tid)
      requires Chained() && t in flight && flight[t].Sending?
      requires var n := flight[t].node; n < next.Length && n !in freeList && n !in queueList
      requires forall u :: u in flight && u != t ==> flight[u].node != flight[t].node
      modifies this`flight, this`head, this`tail, this`entry, this`queueList, next
      ensures Chained() && queueList == [old(flight)[t].node] + old(queueList) && flight == old(flight) - {t}
    {
      ghost var links := next[..];
      var msg := flight[t].node;
      ChainFrame(links, free, freeList, msg, head);
      ChainPush(links, head, queueList, msg);
      next[msg] := head;
      assert next[..] == links[msg := head];
      head := msg;
      if tail == NULL {
        tail := msg;
      }
      entry := entry + 1;
      flight := flight - {t};
      queueList := [msg] + queueList;
    }

    method LinkLast(t: Tid)
      requires Chained() && t in flight && flight[t].Sending? && flight[t].copied && !flight[t].urgent
      requires var n := flight[t].node; n < next.Length && n !in freeList && n !in queueList
      requires Distinct(queueList) && forall n :: n in queueList ==> n !in freeList
      requires forall u :: u in flight ==> flight[u].node !in queueList
      modifies this`flight, this`head, this`tail, this`entry, this`queueList, next
      ensures Chained() && queueList == old(queueList) + [old(flight)[t].node] && flight == old(flight) - {t}
    {
      ghost var links := next[..];
      var msg := flight[t].node;
      ChainAppend(links, head, queueList, msg);
      if tail != NULL {
        assert tail in queueList;
        ChainFrame(links, free, freeList, tail, msg);
        next[tail] := msg;
        assert next[..] == links[tail := msg];
      }
      tail := msg;
      if head == NULL {
        head := msg;
      }
      entry := entry + 1;
      flight := flight - {t};
      queueList := queueList + [msg];
    }

    /** rt_mq_recv, first critical section. */
    method RecvTry(t: Tid, want: nat, wait: bool) returns (r: Err)
      requires Linked() && Inv(View()) && Enabled(View(), Op.RecvTry(t, want, wait)) && waits.IsThread(t)
      modifies this, waits, waits.lists
      ensures Linked() && View() == Next(old(View()), Op.RecvTry(t, want, wait))
      ensures r == Result(old(View()), Op.RecvTry(t, want, wait))
      ensures r == if old(queueList) != [] then EOK else if wait then Blocked else ETIMEOUT
    {
      hide WaitLists.Linked, Filled, NoLostWakeup;
      if entry == 0 && wait {
        waits.BlockReceiver(t);
        return Blocked;
      }
      waits.EnterReceiver(t);
      if entry == 0 {
        return ETIMEOUT;
      }
      Pop(t, want);
      return EOK;
    }

    method Pop(t: Tid, want: nat)
      requires Chained() && entry != 0 && t !in flight && Distinct(queueList)
      modifies this`flight, this`head, this`tail, this`entry, this`queueList
      ensures Chained() && queueList == old(queueList)[1..]
      ensures flight == old(flight)[t := Receiving(old(queueList)[0], want, None)]
    {
      var msg := head;
      head := next[msg];
      if tail == msg {
        tail := NULL;
      }
      entry := entry - 1;
      flight := flight[t := Receiving(msg, want, None)];
      queueList := queueList[1..];
    }

    /** The unprotected copy of rt_mq_recv. */
    method RecvCopy(t: Tid) returns (got: seq<byte>)
      requires Linked() && Inv(View()) && Enabled(View(), Op.RecvCopy(t))
      modifies this`flight
      ensures Linked() && View() == Next(old(View()), Op.RecvCopy(t))
      ensures flight[t].got == Some(got)
    {
      got := CopyOut(t);
    }

    method CopyOut(t: Tid) returns (got: seq<byte>)
      requires Chained() && t in flight && flight[t].Receiving?
      requires flight[t].node < pool.Length && |pool[flight[t].node]| == msgSize
      modifies this`flight
      ensures Chained() && View() == RecvCopyStep(old(View()), t) && flight[t].got == Some(got)
    {
      var f := flight[t];
      got := pool[f.node][..if f.want > msgSize then msgSize else f.want];
      flight := flight[t := f.(got := Some(got))];
    }

    /** rt_mq_recv, second critical section. */
    method RecvFree(t: Tid)
      requires Linked() && Inv(View()) && Enabled(View(), Op.RecvFree(t))
      modifies this, next, waits, waits.lists
      ensures Linked() && View() == Next(old(View()), Op.RecvFree(t))
    {
      FreeAndWake(t);
    }

    method FreeAndWake(t: Tid)
      requires Linked() && t in flight
      requires var n := flight[t].node; n < next.Length && n !in freeList && n !in queueList
      requires forall u :: u in flight && u != t ==> flight[u].node != flight[t].node
      modifies this, next, waits, waits.lists
      ensures Linked() && View() == RecvFreeStep(old(View()), t)
    {
      var msg := flight[t].node;
      flight := flight - {t};
      PutFree(msg);
      waits.WakeSender();
    }

    /** Puts a node that is on neither list to the front of the free list. */
    method PutFree(msg: nat)
      requires next.Length == pool.Length && msg < next.Length && msg !in freeList && msg !in queueList
      requires Chain(next[..], free, freeList) && Chain(next[..], head, queueList)
      modifies this`free, this`freeList, next
      ensures Chain(next[..], free, freeList) && Chain(next[..], head, queueList)
      ensures freeList == [msg] + old(freeList)
      ensures forall n :: 0 <= n < next.Length && n != msg ==> next[n] == old(next[n])
    {
      ghost var links := next[..];
      ChainFrame(links, head, queueList, msg, free);
      ChainPush(links, free, freeList, msg);
      next[msg] := free;
      assert next[..] == links[msg := free];
      free := msg;
      freeList := [msg] + freeList;
    }

    /** rt_thread_timeout on a thread that waits here. */
    method Expire(t: Tid)
      requires Linked() && Inv(View()) && Enabled(View(), Op.Expire(t))
      modifies waits, waits.lists
      ensures Linked() && View() == Next(old(View()), Op.Expire(t))
    {
      hide WaitLists.Linked, Partition, Filled, NoLostWakeup;
      waits.Expire(t);
    }

    /** rt_thread_control(RT_THREAD_CTRL_CHANGE_PRIORITY). */
    method SetPriority(t: Tid, p: int)
      requires Linked()
      modifies waits
      ensures Linked() && View() == Next(old(View()), Op.SetPriority(t, p))
    {
      hide WaitLists.Linked, Chain;
      waits.SetPriority(t, p);
    }

    /** rt_mq_control(RT_IPC_CMD_RESET). */
    method Reset()
      requires Linked() && Inv(View())
      modifies this, next, waits, waits.lists
      ensures Linked() && View() == Next(old(View()), Op.Reset) && entry == 0 && queueList == []
    {
      hide WaitLists.Linked, Filled, NoLostWakeup;
      waits.ResumeAll();
      ReleaseAll();
      entry := 0;
    }

    /** The loop of the reset: every queued node goes back to the free list. */
    method ReleaseAll()
      requires Chained() && Distinct(queueList) && forall n :: n in queueList ==> n !in freeList
      requires forall u :: u in flight ==> flight[u].node !in queueList
      modifies this`head, this`tail, this`free, this`freeList, this`queueList, next
      ensures Chain(next[..], free, freeList) && head == tail == NULL
      ensures queueList == [] && freeList == Recycle(old(queueList), old(freeList))
      ensures forall u :: u in flight && flight[u].node < next.Length ==>
        next[flight[u].node] == old(next[flight[u].node])
    {
      ghost var queued := queueList;
      while head != NULL
        modifies this`head, this`tail, this`free, this`freeList, this`queueList, next
        invariant Chain(next[..], free, freeList) && Chain(next[..], head, queueList)
        invariant Distinct(queueList) && forall n :: n in queueList ==> n in queued && n !in freeList
        invariant tail == if queueList == [] then NULL else queueList[|queueList| - 1]
        invariant Recycle(queueList, freeList) == Recycle(queued, old(freeList))
        invariant forall n :: 0 <= n < next.Length && n !in queued ==> next[n] == old(next[n])
        decreases |queueList|
      {
        HeadTail(queueList);
        var msg := head;
        head := next[msg];
        if tail == msg {
          tail := NULL;
        }
        queueList := queueList[1..];
        PutFree(msg);
      }
    }
  }
}
