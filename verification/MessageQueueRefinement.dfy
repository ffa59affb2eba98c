/**
 The message queue seen by its users: a double-ended queue of whole messages. Each run of the
 interleaved machine is simulated by this one, in which linking, popping and clearing are single steps.
 */
module MessageQueueRefinement {
  import opened Machine
  import opened WaitList
  import opened MessageQueueSteps
  import WaitSteps

  /** `id` numbers the messages in the order in which they were linked. */
  datatype Msg = Msg(id: nat, body: seq<byte>)

  /** What a thread last called for. */
  datatype Request = Send(urgent: bool, body: seq<byte>) | Receive(want: nat)

  /** `asked` are the requests as the callers gave them; `held` are the messages popped by receivers still copying;
      `taken` and `dropped` list ids. */
  datatype Deque = Deque(
    items: seq<Msg>,
    asked: map<Tid, Request>,
    held: map<Tid, Msg>,
    linked: nat,
    taken: seq<nat>,
    dropped: seq<nat>)

  const EMPTY := Deque([], map[], map[], 0, [], [])

  function Append(d: Deque, body: seq<byte>): Deque {
    d.(items := d.items + [Msg(d.linked, body)], linked := d.linked + 1)
  }

  function Prepend(d: Deque, body: seq<byte>): Deque {
    d.(items := [Msg(d.linked, body)] + d.items, linked := d.linked + 1)
  }

  function PopFront(d: Deque, t: Tid): Deque
    requires d.items != []
  {
    d.(items := d.items[1..], held := d.held[t := d.items[0]], taken := d.taken + [d.items[0].id])
  }

  function Ids(items: seq<Msg>): seq<nat> {
    seq(|items|, i requires 0 <= i < |items| => items[i].id)
  }

  function Clear(d: Deque): Deque {
    d.(items := [], dropped := d.dropped + Ids(d.items))
  }

  /** The link step of `t`: the message it called for goes to the end it called for. */
  function LinkAsked(d: Deque, t: Tid): Deque {
    if t !in d.asked || d.asked[t].Receive? then d
    else if d.asked[t].urgent then Prepend(d, d.asked[t].body) else Append(d, d.asked[t].body)
  }

  /** The deque operation a step amounts to, by the operation alone; every other step leaves the messages alone. */
  function DequeNext(d: Deque, op: Op): Deque {
    match op
    case SendTry(t, body, _) => d.(asked := d.asked[t := Send(false, body)])
    case UrgentTry(t, body) => d.(asked := d.asked[t := Send(true, body)])
    case RecvTry(t, want, _) =>
      var d1 := d.(asked := d.asked[t := Receive(want)]);
      if d.items == [] then d1 else PopFront(d1, t)
    case SendLink(t) => LinkAsked(d, t)
    case RecvFree(t) => d.(held := d.held - {t})
    case Reset => Clear(d)
    case _ => d
  }

  /** `bytes` holds a message: it starts with the message's body. */
  predicate Carries(bytes: seq<byte>, m: Msg) {
    m.body <= bytes
  }

  /** What a receiver with a buffer of `want` bytes got agrees with the message on the shorter length. */
  predicate Delivered(got: seq<byte>, want: nat, msgSize: nat, m: Msg) {
    && |got| == Min(want, msgSize)
    && got[..Min(|got|, |m.body|)] == m.body[..Min(|got|, |m.body|)]
  }

  /** The calls in progress are those the callers made. */
  ghost predicate AsAsked(s: State, d: Deque) {
    forall t :: t in s.flight ==>
      && t in d.asked
      && d.asked[t] == (if s.flight[t].Sending? then Send(s.flight[t].urgent, s.flight[t].body)
                        else Receive(s.flight[t].want))
  }

  ghost predicate Refines(s: State, d: Deque) {
    && Stand(s.queue, s.data, d.items) && AsAsked(s, d)
    && (forall t :: t in d.held <==> t in s.flight && s.flight[t].Receiving?)
    && (forall t :: t in d.held ==>
          && s.flight[t].node < |s.data|
          && Carries(s.data[s.flight[t].node], d.held[t])
          && (s.flight[t].got.Some? ==> Delivered(s.flight[t].got.value, s.flight[t].want, s.msgSize, d.held[t])))
  }

  /** Each linked message is queued, was popped once, or was dropped by a reset; never two of these. */
  ghost predicate EachOnce(d: Deque) {
    multiset(Ids(d.items)) + multiset(d.taken) + multiset(d.dropped) == multiset(Upto(d.linked))
  }

  function Upto(n: nat): seq<nat> {
    if n == 0 then [] else Upto(n - 1) + [n - 1]
  }

  lemma FilledCarries(s: State, t: Tid, m: Msg)
    requires Filled(s) && Enabled(s, SendLink(t)) && m.body == s.flight[t].body
    ensures Carries(s.data[s.flight[t].node], m)
  {
  }

  /** `items` stand for the messages in the nodes `queue`. */
  ghost predicate Stand(queue: seq<nat>, data: seq<seq<byte>>, items: seq<Msg>) {
    && |items| == |queue|
    && forall i :: 0 <= i < |queue| ==> queue[i] < |data| && Carries(data[queue[i]], items[i])
  }

  lemma StandEnds(queue: seq<nat>, data: seq<seq<byte>>, items: seq<Msg>, node: nat, m: Msg)
    requires Stand(queue, data, items) && node < |data| && Carries(data[node], m)
    ensures Stand(queue + [node], data, items + [m]) && Stand([node] + queue, data, [m] + items)
  {
    hide Carries;
  }

  lemma SimulateLink(s: State, d: Deque, t: Tid)
    requires Inv(s) && Refines(s, d) && Enabled(s, SendLink(t))
    ensures Refines(Next(s, SendLink(t)), DequeNext(d, SendLink(t)))
  {
    hide Partition, ThreadsApart, NoLostWakeup, Carries, Delivered, Stand;
    assert d.asked[t] == Send(s.flight[t].urgent, s.flight[t].body);
    var f, m := s.flight[t], Msg(d.linked, s.flight[t].body);
    FilledCarries(s, t, m);
    StandEnds(s.queue, s.data, d.items, f.node, m);
  }

  lemma StandElsewhere(queue: seq<nat>, data: seq<seq<byte>>, items: seq<Msg>, node: nat, bytes: seq<byte>)
    requires Stand(queue, data, items) && node < |data| && node !in queue
    ensures Stand(queue, data[node := bytes], items)
  {
    hide Carries;
  }

  lemma SimulateCopy(s: State, d: Deque, t: Tid)
    requires Inv(s) && Refines(s, d) && Enabled(s, SendCopy(t))
    ensures Refines(Next(s, SendCopy(t)), d)
  {
    hide ThreadsApart, NoLostWakeup, Filled, Carries, Delivered, Stand;
    var node := s.flight[t].node;
    assert node !in s.queue;
    StandElsewhere(s.queue, s.data, d.items, node, Overlay(s.flight[t].body, s.data[node]));
    forall u | u in d.held ensures s.flight[u].node != node {
      assert u != t;
    }
  }

  lemma SimulatePop(s: State, d: Deque, t: Tid, want: nat, wait: bool)
    requires Inv(s) && Refines(s, d) && Enabled(s, RecvTry(t, want, wait))
    ensures Refines(Next(s, RecvTry(t, want, wait)), DequeNext(d, RecvTry(t, want, wait)))
  {
    hide ThreadsApart, NoLostWakeup, Filled, Carries, Delivered, Stand, Partition;
    if s.queue != [] { StandTail(s.queue, s.data, d.items); }
    StandLength(s.queue, s.data, d.items);
  }

  lemma StandLength(queue: seq<nat>, data: seq<seq<byte>>, items: seq<Msg>)
    requires Stand(queue, data, items)
    ensures |queue| == |items|
  {
  }

  lemma StandTail(queue: seq<nat>, data: seq<seq<byte>>, items: seq<Msg>)
    requires Stand(queue, data, items) && queue != []
    ensures items != [] && Stand(queue[1..], data, items[1..]) && queue[0] < |data| && Carries(data[queue[0]], items[0])
  {
    hide Carries;
  }

  lemma SimulateDeliver(s: State, d: Deque, t: Tid)
    requires Inv(s) && Refines(s, d) && Enabled(s, RecvCopy(t))
    ensures Refines(Next(s, RecvCopy(t)), d)
  {
    hide ThreadsApart, NoLostWakeup, Partition, Carries, Delivered;
    var f := s.flight[t];
    TakenDelivers(s, f.node, f.want, d.held[t]);
  }

  lemma TakenDelivers(s: State, node: nat, want: nat, m: Msg)
    requires node < |s.data| && |s.data[node]| == s.msgSize && Carries(s.data[node], m)
    ensures Delivered(Taken(s, node, want), want, s.msgSize, m)
  {
    var bytes, got := s.data[node], Taken(s, node, want);
    var k := Min(|got|, |m.body|);
    assert got[..k] == bytes[..k] == m.body[..k];
  }

  /** A step that moves no message and no receiver is invisible in the deque. */
  lemma QuietKeepsRefines(s: State, s': State, d: Deque)
    requires Refines(s, d) && s'.queue == s.queue && s'.data == s.data && s'.msgSize == s.msgSize
    requires forall t :: t in s.flight && s.flight[t].Receiving? ==> t in s'.flight && s'.flight[t] == s.flight[t]
    requires forall t :: t in s'.flight ==> t in s.flight && s'.flight[t] == s.flight[t]
    ensures Refines(s', d)
  {
  }

  lemma SimulateFree(s: State, d: Deque, t: Tid)
    requires Refines(s, d) && Enabled(s, RecvFree(t))
    ensures Refines(Next(s, RecvFree(t)), DequeNext(d, RecvFree(t)))
  {
  }

  /** A send that begins has taken a node for what its caller gave, or changed nothing. */
  lemma SimulateTry(s: State, d: Deque, op: Op)
    requires Inv(s) && Refines(s, d) && Enabled(s, op) && (op.SendTry? || op.UrgentTry?)
    ensures Refines(Next(s, op), DequeNext(d, op))
  {
    hide Partition, ThreadsApart, NoLostWakeup, Filled, Carries, Delivered, Stand;
  }

  lemma SimulateReset(s: State, d: Deque)
    requires Refines(s, d)
    ensures Refines(Next(s, Reset), DequeNext(d, Reset))
  {
  }

  /** Forward simulation: each step of the interleaved machine is the matching deque operation. */
  lemma Simulate(s: State, d: Deque, op: Op)
    requires Inv(s) && Refines(s, d) && Enabled(s, op)
    ensures Refines(Next(s, op), DequeNext(d, op))
  {
    hide Refines, Partition, NoLostWakeup, Filled;
    match op
    case SendTry(t, body, wait) => SimulateTry(s, d, op);
    case UrgentTry(t, body) => SimulateTry(s, d, op);
    case SendCopy(t) => SimulateCopy(s, d, t);
    case SendLink(t) => SimulateLink(s, d, t);
    case RecvTry(t, want, wait) => SimulatePop(s, d, t, want, wait);
    case RecvCopy(t) => SimulateDeliver(s, d, t);
    case RecvFree(t) => SimulateFree(s, d, t);
    case Reset => SimulateReset(s, d);
    case _ => QuietKeepsRefines(s, Next(s, op), d);
  }

  /** One more message linked, queued at either end. */
  lemma OneMore(ids: seq<nat>, taken: seq<nat>, dropped: seq<nat>, n: nat)
    requires multiset(ids) + multiset(taken) + multiset(dropped) == multiset(Upto(n))
    ensures multiset(ids + [n]) + multiset(taken) + multiset(dropped) == multiset(Upto(n + 1))
    ensures multiset([n] + ids) == multiset(ids + [n])
  {
    assert Upto(n + 1) == Upto(n) + [n];
    assert multiset(ids + [n]) == multiset(ids) + multiset{n};
    assert multiset([n] + ids) == multiset{n} + multiset(ids);
    assert multiset(Upto(n) + [n]) == multiset(Upto(n)) + multiset{n};
  }

  lemma IdsSnoc(items: seq<Msg>, m: Msg)
    ensures Ids(items + [m]) == Ids(items) + [m.id] && Ids([m] + items) == [m.id] + Ids(items)
  {
  }

  lemma AppendEachOnce(d: Deque, body: seq<byte>)
    requires EachOnce(d)
    ensures EachOnce(Append(d, body))
  {
    hide Ids, Upto;
    IdsSnoc(d.items, Msg(d.linked, body));
    OneMore(Ids(d.items), d.taken, d.dropped, d.linked);
  }

  lemma PrependEachOnce(d: Deque, body: seq<byte>)
    requires EachOnce(d)
    ensures EachOnce(Prepend(d, body))
  {
    hide Ids, Upto;
    IdsSnoc(d.items, Msg(d.linked, body));
    OneMore(Ids(d.items), d.taken, d.dropped, d.linked);
  }

  lemma PopEachOnce(d: Deque, t: Tid)
    requires EachOnce(d) && d.items != []
    ensures EachOnce(PopFront(d, t))
  {
    assert Ids(d.items) == [d.items[0].id] + Ids(PopFront(d, t).items);
  }

  lemma ClearEachOnce(d: Deque)
    requires EachOnce(d)
    ensures EachOnce(Clear(d))
  {
    assert Ids(Clear(d).items) == [];
  }

  lemma SameOnce(d: Deque, d': Deque)
    requires EachOnce(d) && d'.items == d.items && d'.taken == d.taken && d'.dropped == d.dropped
    requires d'.linked == d.linked
    ensures EachOnce(d')
  {
  }

  lemma StepEachOnce(d: Deque, op: Op)
    requires EachOnce(d)
    ensures EachOnce(DequeNext(d, op))
  {
    hide EachOnce, Append, Prepend, PopFront, Clear;
    match op
    case SendTry(t, body, _) => SameOnce(d, DequeNext(d, op));
    case UrgentTry(t, body) => SameOnce(d, DequeNext(d, op));
    case SendLink(t) =>
      if t in d.asked && d.asked[t].Send? {
        PrependEachOnce(d, d.asked[t].body);
        AppendEachOnce(d, d.asked[t].body);
      }
    case RecvTry(t, want, _) =>
      var d1 := d.(asked := d.asked[t := Receive(want)]);
      SameOnce(d, d1);
      if d.items != [] { PopEachOnce(d1, t); }
    case RecvFree(t) => SameOnce(d, DequeNext(d, op));
    case Reset => ClearEachOnce(d);
    case _ =>
  }

  // ----- Whole runs

  ghost predicate IsRun(s: State, ops: seq<Op>)
    decreases |ops|
  {
    ops != [] ==> Enabled(s, ops[0]) && IsRun(Next(s, ops[0]), ops[1..])
  }

  ghost function After(s: State, ops: seq<Op>): State
    requires IsRun(s, ops)
    decreases |ops|
  {
    if ops == [] then s else After(Next(s, ops[0]), ops[1..])
  }

  function DequeAfter(d: Deque, ops: seq<Op>): Deque
    decreases |ops|
  {
    if ops == [] then d else DequeAfter(DequeNext(d, ops[0]), ops[1..])
  }

  lemma {:induction false} RunFrom(s: State, d: Deque, ops: seq<Op>)
    requires Inv(s) && Refines(s, d) && EachOnce(d) && IsRun(s, ops)
    ensures Inv(After(s, ops))
    ensures Refines(After(s, ops), DequeAfter(d, ops)) && EachOnce(DequeAfter(d, ops))
    decreases |ops|
  {
    if ops != [] {
      StepInv(s, ops[0]);
      Simulate(s, d, ops[0]);
      StepEachOnce(d, ops[0]);
      RunFrom(Next(s, ops[0]), DequeNext(d, ops[0]), ops[1..]);
    }
  }

  /**
   Main theorem. Whatever steps the threads take from a freshly initialised queue, the nodes stay
   partitioned, no wake-up is lost, and the run is a run of the deque that the same operations drive: each message
   linked is the one its sender called for, goes to the end it called for, and is popped at most once, with its bytes.
   */
  lemma EveryRunRefinesDeque(s: State, ops: seq<Op>)
    requires Initial(s) && IsRun(s, ops)
    ensures Partition(After(s, ops)) && ThreadsApart(After(s, ops)) && NoLostWakeup(After(s, ops))
    ensures Refines(After(s, ops), DequeAfter(EMPTY, ops)) && EachOnce(DequeAfter(EMPTY, ops))
    ensures Distinct(DequeAfter(EMPTY, ops).taken)
  {
    InitialInv(s);
    assert EachOnce(EMPTY) by { assert Ids([]) == []; }
    RunFrom(s, EMPTY, ops);
    TakenOnce(DequeAfter(EMPTY, ops));
  }

  /** Both wait lists are in the order of service in this state and after every step of the run. */
  ghost predicate AlwaysInLines(s: State, ops: seq<Op>)
    requires IsRun(s, ops)
    decreases |ops|
  {
    WaitSteps.InLines(s.crowd) && (ops != [] ==> AlwaysInLines(Next(s, ops[0]), ops[1..]))
  }

  ghost predicate CalmRun(s: State, ops: seq<Op>)
    requires IsRun(s, ops)
    decreases |ops|
  {
    ops != [] ==> Calm(s, ops[0]) && CalmRun(Next(s, ops[0]), ops[1..])
  }

  lemma {:induction false} CalmFrom(s: State, ops: seq<Op>)
    requires Inv(s) && WaitSteps.InLines(s.crowd) && IsRun(s, ops)
    ensures AlwaysInLines(s, ops) <==> CalmRun(s, ops)
    decreases |ops|
  {
    if ops != [] {
      StepInv(s, ops[0]);
      StepInLines(s, ops[0]);
      if Calm(s, ops[0]) { CalmFrom(Next(s, ops[0]), ops[1..]); }
    }
  }

  /** Threads are woken in the order of service throughout a run if and only if each change of priority in it lets the
      thread, if it waits, fit between its neighbours. */
  lemma EveryRunInLines(s: State, ops: seq<Op>)
    requires Initial(s) && IsRun(s, ops)
    ensures AlwaysInLines(s, ops) <==> CalmRun(s, ops)
  {
    InitialInv(s);
    CalmFrom(s, ops);
  }

  lemma {:induction false} UptoOnce(n: nat, id: nat)
    ensures multiset(Upto(n))[id] == if id < n then 1 else 0
  {
    if n > 0 { UptoOnce(n - 1, id); }
  }

  lemma TakenOnce(d: Deque)
    requires EachOnce(d)
    ensures Distinct(d.taken)
  {
    forall i, j | 0 <= i < j < |d.taken| ensures d.taken[i] != d.taken[j] {
      UptoOnce(d.linked, d.taken[i]);
      assert multiset(d.taken)[d.taken[i]] <= 1;
      if d.taken[i] == d.taken[j] { TwiceCounts(d.taken, i, j); }
    }
  }

  lemma TwiceCounts(s: seq<nat>, i: nat, j: nat)
    requires i < j < |s| && s[i] == s[j]
    ensures multiset(s)[s[i]] >= 2
  {
    assert s == s[..i] + [s[i]] + s[i + 1..];
    assert s[i + 1..] == s[i + 1..j] + [s[j]] + s[j + 1..];
  }
}
