/** The order in which the threads on wait lists are served, and what a change of priority does to it. */
module ServiceOrder {
  import opened WaitList

  /** What decides the order: the list flag, the current priorities, and the number each thread drew when it was
      suspended, so that threads can be told apart by how long they wait. */
  datatype Order = Order(flag: Flag, prio: Priorities, ticket: map<Tid, nat>, drawn: nat)

  function Ticket(o: Order, t: Tid): nat {
    if t in o.ticket then o.ticket[t] else 0
  }

  /** `t` is to be served before `u`: by urgency on a PRIO list, and by waiting time. */
  predicate Before(o: Order, t: Tid, u: Tid) {
    match o.flag
    case FIFO => Ticket(o, t) < Ticket(o, u)
    case PRIO =>
      || Pri(o.prio, t) < Pri(o.prio, u)
      || (Pri(o.prio, t) == Pri(o.prio, u) && Ticket(o, t) < Ticket(o, u))
  }

  function Service(o: Order): (Tid, Tid) -> bool {
    (t: Tid, u: Tid) => Before(o, t, u)
  }

  function Draw(o: Order, t: Tid): Order {
    o.(ticket := o.ticket[t := o.drawn], drawn := o.drawn + 1)
  }

  /** Every thread on the list has drawn a number. */
  ghost predicate Drawn(o: Order, ws: seq<Tid>) {
    forall t :: t in ws ==> Ticket(o, t) < o.drawn
  }

  /** The list is in the order of service. */
  ghost predicate InLine(o: Order, ws: seq<Tid>) {
    Drawn(o, ws) && Ordered(ws, Service(o))
  }

  function Place(o: Order, ws: seq<Tid>, t: Tid): seq<Tid> {
    Suspend(o.flag, ws, o.prio, t)
  }

  /** A newly suspended thread takes its place in the line. */
  lemma SuspendInLine(o: Order, ws: seq<Tid>, t: Tid)
    requires InLine(o, ws) && t !in ws
    ensures InLine(Draw(o, t), Place(o, ws, t))
  {
    var o', k := Draw(o, t), Slot(o.flag, ws, o.prio, t);
    var rel, rel' := Service(o), Service(o');
    OrderedWeaken(ws, rel, rel');
    forall i | 0 <= i < |ws| ensures i < k ==> rel'(ws[i], t) {
      assert ws[i] in ws;
    }
    forall i | k <= i < |ws| ensures rel'(t, ws[i]) {
      assert k < i ==> rel(ws[k], ws[i]);
    }
    InsertOrdered(ws, k, t, rel');
  }

  /** A list the thread is not put on stays in line. */
  lemma OtherInLine(o: Order, ws: seq<Tid>, t: Tid)
    requires InLine(o, ws) && t !in ws
    ensures InLine(Draw(o, t), ws)
  {
    OrderedWeaken(ws, Service(o), Service(Draw(o, t)));
  }

  lemma WithoutInLine(o: Order, ws: seq<Tid>, t: Tid)
    requires InLine(o, ws)
    ensures InLine(o, Without(ws, t))
  {
    WithoutOrdered(ws, t, Service(o));
  }

  lemma TailInLine(o: Order, ws: seq<Tid>)
    requires InLine(o, ws) && ws != []
    ensures InLine(o, ws[1..])
  {
    assert forall i :: 0 <= i < |ws[1..]| ==> ws[1..][i] == ws[i + 1];
  }

  lemma NobodyInLine(o: Order)
    ensures InLine(o, [])
  {
  }

  /** The first of a list in line comes before all others. */
  lemma FirstServed(o: Order, ws: seq<Tid>, u: Tid)
    requires InLine(o, ws) && ws != [] && u in ws && u != ws[0]
    ensures Before(o, ws[0], u)
  {
    var j :| 0 <= j < |ws| && ws[j] == u;
    var rel := Service(o);
    assert rel(ws[0], ws[j]);
  }

  // ----- rt_thread_control(RT_THREAD_CTRL_CHANGE_PRIORITY), which does not sort the wait list again

  function SetPriority(o: Order, t: Tid, p: int): Order {
    o.(prio := o.prio[t := p])
  }

  /** With priority `p` the thread `t` of the list still fits between its neighbours. */
  ghost predicate FitsBetween(o: Order, ws: seq<Tid>, t: Tid, p: int) {
    forall j :: 0 <= j < |ws| && ws[j] == t ==>
      && (j > 0 ==> Before(SetPriority(o, t, p), ws[j - 1], t))
      && (j + 1 < |ws| ==> Before(SetPriority(o, t, p), t, ws[j + 1]))
  }

  /** A list in line stays so if and only if the thread, if it waits there, still fits between its neighbours. */
  lemma SetPriorityInLine(o: Order, ws: seq<Tid>, t: Tid, p: int)
    requires InLine(o, ws) && Distinct(ws)
    ensures InLine(SetPriority(o, t, p), ws) <==> FitsBetween(o, ws, t, p)
  {
    var o' := SetPriority(o, t, p);
    if t in ws {
      var j :| 0 <= j < |ws| && ws[j] == t;
      if FitsBetween(o, ws, t, p) { FitsInLine(o, ws, j, p); }
      if InLine(o', ws) {
        var rel' := Service(o');
        assert j > 0 ==> rel'(ws[j - 1], ws[j]);
        assert j + 1 < |ws| ==> rel'(ws[j], ws[j + 1]);
      }
    } else {
      OrderedWeaken(ws, Service(o), Service(o'));
    }
  }

  lemma FitsInLine(o: Order, ws: seq<Tid>, j: nat, p: int)
    requires InLine(o, ws) && Distinct(ws) && j < |ws| && FitsBetween(o, ws, ws[j], p)
    ensures InLine(SetPriority(o, ws[j], p), ws)
  {
    var t := ws[j];
    var o' := SetPriority(o, t, p);
    var rel, rel' := Service(o), Service(o');
    forall i, k | 0 <= i < k < |ws| ensures rel'(ws[i], ws[k]) {
      assert rel(ws[i], ws[k]);
      if k == j {
        assert i < j - 1 ==> rel(ws[i], ws[j - 1]);
      } else if i == j {
        assert j + 1 < k ==> rel(ws[j + 1], ws[k]);
      }
    }
  }

  /** Raising a thread that waits behind another: threads 1 and 2, of priorities 10 and 20, wait in line until 2 gets
      priority 5. */
  lemma SetPriorityCanMisplace()
    ensures var o := Order(PRIO, map[1 := 10, 2 := 20], map[1 := 0, 2 := 1], 2);
            InLine(o, [1, 2]) && !InLine(SetPriority(o, 2, 5), [1, 2])
  {
    var o := Order(PRIO, map[1 := 10, 2 := 20], map[1 := 0, 2 := 1], 2);
    var ws := [1, 2];
    assert ws[0] == 1 && ws[1] == 2 && !Before(SetPriority(o, 2, 5), 1, 2);
    assert InLine(o, ws);
    SetPriorityInLine(o, ws, 2, 5);
  }
}
