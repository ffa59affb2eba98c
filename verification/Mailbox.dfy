/** rt_mailbox with its ring of mails. Each method is one critical section of rt_mb_send_wait, rt_mb_recv or
    rt_mb_control, proved to be the step of the same name. */
module Mailbox {
  import opened Machine
  import opened WaitList
  import opened ThreadError
  import WaitSteps
  import opened Waits
  import opened MailboxSteps

  /** The `n` mails in the ring from place `from` on. */
  function Contents(pool: seq<Mail>, from: nat, n: nat): (r: seq<Mail>)
    requires n <= |pool| && (n > 0 ==> from < |pool|)
    ensures |r| == n
  {
    seq(n, i requires 0 <= i < n => pool[if from + i < |pool| then from + i else from + i - |pool|])
  }

  function Wrap(place: nat, size: nat): nat {
    if place >= size then 0 else place
  }

  /** Stepping the read offset drops the oldest mail. */
  lemma ContentsTail(pool: seq<Mail>, from: nat, n: nat)
    requires 0 < n <= |pool| && from < |pool|
    ensures Contents(pool, from, n) == [pool[from]] + Contents(pool, Wrap(from + 1, |pool|), n - 1)
  {
  }

  /** Writing behind the newest mail adds one. */
  lemma ContentsSnoc(pool: seq<Mail>, from: nat, n: nat, place: nat, mail: Mail)
    requires n < |pool| && from < |pool| && place == if from + n < |pool| then from + n else from + n - |pool|
    ensures Contents(pool[place := mail], from, n + 1) == Contents(pool, from, n) + [mail]
  {
  }

  class Box {
    const pool: array<Mail>         // msg_pool
    const size: nat
    const waits: WaitLists
    var entry: nat
    var inOffset: nat
    var outOffset: nat

    ghost predicate Valid()
      reads this, pool, waits, waits.lists
    {
      Offsets() && waits.Linked()
    }

    ghost predicate Offsets()
      reads this, pool
    {
      && size == pool.Length && entry <= size
      && (size > 0 ==> outOffset < size && inOffset < size)
      && (size > 0 ==> inOffset == if outOffset + entry < size then outOffset + entry else outOffset + entry - size)
    }

    ghost function View(): State
      requires Offsets()
      reads this, pool, waits
    {
      State(size, Contents(pool[..], outOffset, entry), waits.View())
    }

    /** rt_mb_init. */
    constructor (slots: nat, mode: Flag, head: nat, senderHead: nat, priorities: Priorities)
      requires head != senderHead
      ensures Valid() && View() == Empty(slots, mode, priorities)
      ensures fresh(pool) && fresh(waits) && fresh(waits.lists)
    {
      pool := new Mail[slots](_ => 0);
      size := slots;
      entry, inOffset, outOffset := 0, 0, 0;
      waits := new WaitLists(mode, head, senderHead, priorities);
    }

    /** rt_mb_send_wait, on entry or after a wake-up. */
    method SendTry(t: Tid, mail: Mail, wait: bool) returns (r: Err)
      requires Valid() && Inv(View()) && Enabled(View(), Op.SendTry(t, mail, wait)) && waits.IsThread(t)
      modifies this, pool, waits, waits.lists
      ensures Valid() && View() == Next(old(View()), Op.SendTry(t, mail, wait))
      ensures r == Result(old(View()), Op.SendTry(t, mail, wait)).err
      ensures r == if old(entry) < size then EOK else if wait then Blocked else EFULL
    {
      hide Contents, WaitLists.Linked, WaitSteps.NoLostWakeup, WaitSteps.Told;
      if entry == size {
        if wait {
          waits.BlockSender(t);
          return Blocked;
        }
        waits.EnterSender(t);
        return EFULL;
      }
      waits.EnterSender(t);
      ContentsSnoc(pool[..], outOffset, entry, inOffset, mail);
      ghost var ms := pool[..];
      pool[inOffset] := mail;
      assert pool[..] == ms[inOffset := mail];
      inOffset := Wrap(inOffset + 1, size);
      entry := entry + 1;
      waits.WakeReceiver();
      return EOK;
    }

    /** rt_mb_recv, on entry or after a wake-up. */
    method RecvTry(t: Tid, wait: bool) returns (r: Err, mail: Mail)
      requires Valid() && Inv(View()) && Enabled(View(), Op.RecvTry(t, wait)) && waits.IsThread(t)
      modifies this, waits, waits.lists
      ensures Valid() && View() == Next(old(View()), Op.RecvTry(t, wait))
      ensures Answer(r, mail) == Result(old(View()), Op.RecvTry(t, wait))
      ensures r == if old(entry) > 0 then EOK else if wait then Blocked else ETIMEOUT
    {
      hide Contents, WaitLists.Linked, WaitSteps.NoLostWakeup, WaitSteps.Told;
      mail := 0;
      if entry == 0 {
        if wait {
          waits.BlockReceiver(t);
          return Blocked, mail;
        }
        waits.EnterReceiver(t);
        return ETIMEOUT, mail;
      }
      waits.EnterReceiver(t);
      ContentsTail(pool[..], outOffset, entry);
      mail := pool[outOffset];
      outOffset := Wrap(outOffset + 1, size);
      entry := entry - 1;
      waits.WakeSender();
      return EOK, mail;
    }

    /** What a resumed thread does first: it tries again just if its error is RT_EOK, and returns the error
        otherwise. */
    method Awake(t: Tid) returns (r: Err)
      requires Valid() && Inv(View())
      requires var c := View().crowd; t in c.wokenReceivers || t in c.wokenSenders || t in c.failed
      modifies waits
      ensures Valid() && r == ErrorOf(waits.error, t)
      ensures var c := old(View()).crowd; r == EOK <==> t in c.wokenReceivers || t in c.wokenSenders
      ensures r == EOK ==> View() == old(View())
      ensures r != EOK ==> Enabled(old(View()), Op.Fail(t)) && View() == Next(old(View()), Op.Fail(t))
    {
      hide Contents, WaitLists.Linked, NoLostWakeup, WaitSteps.Sound;
      r := waits.Awake(t);
    }

    /** rt_thread_timeout on a thread that waits here. */
    method Expire(t: Tid)
      requires Valid() && Enabled(View(), Op.Expire(t))
      modifies waits, waits.lists
      ensures Valid() && View() == Next(old(View()), Op.Expire(t))
    {
      hide Contents, WaitLists.Linked;
      waits.Expire(t);
    }

    /** rt_mb_control(RT_IPC_CMD_RESET). */
    method Reset()
      requires Valid()
      modifies this, waits, waits.lists
      ensures Valid() && View() == Next(old(View()), Op.Reset) && entry == 0
    {
      hide WaitLists.Linked;
      waits.ResumeAll();
      entry, inOffset, outOffset := 0, 0, 0;
    }

    /** rt_thread_control(RT_THREAD_CTRL_CHANGE_PRIORITY). */
    method SetPriority(t: Tid, p: int)
      requires Valid()
      modifies waits
      ensures Valid() && View() == Next(old(View()), Op.SetPriority(t, p))
    {
      hide Contents, WaitLists.Linked;
      waits.SetPriority(t, p);
    }
  }
}
