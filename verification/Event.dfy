/** The event set of rt-thread/src/ipc.c as a state machine; each critical section is one step. */
module EventSteps {
  import opened Machine
  import opened WaitList
  import opened ServiceOrder
  import opened ThreadError

  type Bits = bv32

  /** RT_EVENT_FLAG_AND, RT_EVENT_FLAG_OR and RT_EVENT_FLAG_CLEAR of a receive option. */
  datatype Mode = Mode(all: bool, any: bool, clear: bool)

  /** A suspended thread with its event_set and event_info. */
  datatype Waiter = Waiter(tid: Tid, want: Bits, mode: Mode)

  /** What a receiver is told, and whether it consumed these bits. */
  datatype Delivery = Delivery(tid: Tid, got: Bits, clear: bool)

  /** `ready` are the threads taken off the wait list that have not run yet, `woken` the deliveries to those of them
      that a send served. */
  datatype State = State(
    pending: Bits,
    order: Order,
    waiters: seq<Waiter>,
    woken: seq<Delivery>,
    error: Errors,
    ready: set<Tid>)

  /** The threads that wait, and those that were served. */
  function Waiting(ws: seq<Waiter>): (ts: seq<Tid>)
    ensures |ts| == |ws| && forall i :: 0 <= i < |ws| ==> ts[i] == ws[i].tid
  {
    seq(|ws|, i requires 0 <= i < |ws| => ws[i].tid)
  }

  function Served(ds: seq<Delivery>): (ts: seq<Tid>)
    ensures |ts| == |ds| && forall i :: 0 <= i < |ds| ==> ts[i] == ds[i].tid
  {
    seq(|ds|, i requires 0 <= i < |ds| => ds[i].tid)
  }

  datatype Op =
    | Send(bits: Bits)
    | Recv(t: Tid, want: Bits, mode: Mode, wait: bool)
    | Return(t: Tid)
    | Expire(t: Tid)
    | Reset
    | SetPriority(t: Tid, p: int)

  /** The condition a thread waits for holds of `bits`. */
  predicate Satisfied(want: Bits, mode: Mode, bits: Bits) {
    if mode.all then want & bits == want else mode.any && want & bits != 0
  }

  /** The bits a satisfied waiter is told of: all it asked for, or those of them that are set. */
  function Got(want: Bits, mode: Mode, bits: Bits): Bits {
    if mode.all then want else want & bits
  }

  function Mask(bits: Bits, want: Bits): Bits {
    bits & want
  }

  function Consume(bits: Bits, got: Bits, clear: bool): Bits {
    if clear then bits & !got else bits
  }

  datatype Walked = Walked(rest: seq<Waiter>, bits: Bits, served: seq<Delivery>)

  /** The loop of rt_event_send over the suspended threads; it stops at one that asked for neither AND nor OR. */
  function Walk(ws: seq<Waiter>, bits: Bits): Walked {
    if ws == [] || (!ws[0].mode.all && !ws[0].mode.any) then Walked(ws, bits, [])
    else
      var w := ws[0];
      if Satisfied(w.want, w.mode, bits) then
        var got := Got(w.want, w.mode, bits);
        var r := Walk(ws[1..], Consume(bits, got, w.mode.clear));
        r.(served := [Delivery(w.tid, got, w.mode.clear)] + r.served)
      else
        var r := Walk(ws[1..], bits);
        r.(rest := [w] + r.rest)
  }

  predicate Enabled(s: State, op: Op) {
    match op
    case Send(_) => true
    case Recv(t, _, mode, _) => (mode.all || mode.any) && t !in Waiting(s.waiters) && t !in s.ready
    case Return(t) => t in s.ready
    case Expire(t) => t in Waiting(s.waiters)
    case Reset => true
    case SetPriority(_, _) => true
  }

  function SendStep(s: State, bits: Bits): State {
    if bits == 0 then s
    else
      var r := Walk(s.waiters, Join(s.pending, bits));
      s.(pending := r.bits, waiters := r.rest, woken := s.woken + r.served, ready := s.ready + SetOf(Served(r.served)))
  }

  /** The waiters with `w` suspended among them. */
  function Line(o: Order, ws: seq<Waiter>, w: Waiter): seq<Waiter> {
    var k := Slot(o.flag, Waiting(ws), o.prio, w.tid);
    ws[..k] + [w] + ws[k..]
  }

  /** rt_event_recv up to its return or its suspension. */
  function RecvStep(s: State, t: Tid, want: Bits, mode: Mode, wait: bool): State {
    if want == 0 then s
    else if Satisfied(want, mode, s.pending) then
      s.(pending := Consume(s.pending, want, mode.clear), error := s.error[t := EOK])
    else if !wait then s.(error := s.error[t := ETIMEOUT])
    else s.(waiters := Line(s.order, s.waiters, Waiter(t, want, mode)), order := Draw(s.order, t),
            error := s.error[t := EOK])
  }

  function DropThread(ws: seq<Waiter>, t: Tid): seq<Waiter> {
    if ws == [] then [] else if ws[0].tid == t then ws[1..] else [ws[0]] + DropThread(ws[1..], t)
  }

  function DropDelivery(ds: seq<Delivery>, t: Tid): seq<Delivery> {
    if ds == [] then [] else if ds[0].tid == t then ds[1..] else [ds[0]] + DropDelivery(ds[1..], t)
  }

  function Next(s: State, op: Op): State
    requires Enabled(s, op)
  {
    match op
    case Send(bits) => SendStep(s, bits)
    case Recv(t, want, mode, wait) => RecvStep(s, t, want, mode, wait)
    case Return(t) => s.(woken := DropDelivery(s.woken, t), ready := s.ready - {t})
    case Expire(t) =>
      s.(waiters := DropThread(s.waiters, t), error := s.error[t := ETIMEOUT], ready := s.ready + {t})
    case Reset =>
      s.(waiters := [], pending := 0, error := FailAll(s.error, Waiting(s.waiters)),
         ready := s.ready + SetOf(Waiting(s.waiters)))
    case SetPriority(t, p) => s.(order := ServiceOrder.SetPriority(s.order, t, p))
  }

  // ----- Bits

  predicate Within(a: Bits, b: Bits) {
    a & b == a
  }

  lemma WithinTrans(a: Bits, b: Bits, c: Bits)
    requires Within(a, b) && Within(b, c)
    ensures Within(a, c)
  {
    assert a & c == (a & b) & c == a & (b & c);
  }

  lemma WithinSelf(a: Bits)
    ensures Within(a, a)
  {
  }

  /** A satisfied receiver is told bits that are set, and at least one. */
  lemma GotSet(want: Bits, mode: Mode, bits: Bits)
    requires Satisfied(want, mode, bits) && want != 0
    ensures Within(Got(want, mode, bits), bits) && Got(want, mode, bits) != 0
  {
    WithinMask(want, bits);
  }

  lemma WithinMask(a: Bits, b: Bits)
    ensures Within(a & b, b)
  {
  }

  /** A condition that does not hold does not come to hold by taking bits away. */
  lemma FewerBitsSatisfyLess(want: Bits, mode: Mode, bits: Bits, fewer: Bits)
    requires Within(fewer, bits) && !Satisfied(want, mode, bits)
    ensures !Satisfied(want, mode, fewer)
  {
    hide Within;
    if mode.all && want & fewer == want { AllOfFewer(want, bits, fewer); }
    if want & bits == 0 { NoneOfFewer(want, bits, fewer); }
  }

  lemma AllOfFewer(want: Bits, bits: Bits, fewer: Bits)
    requires Within(fewer, bits) && want & fewer == want
    ensures want & bits == want
  {
    assert want & bits == want & (fewer & bits);
  }

  lemma NoneOfFewer(want: Bits, bits: Bits, fewer: Bits)
    requires Within(fewer, bits) && want & bits == 0
    ensures want & fewer == 0
  {
    assert want & fewer == want & (fewer & bits) == (want & bits) & fewer;
  }

  lemma ConsumeWithin(bits: Bits, got: Bits, clear: bool)
    ensures Within(Consume(bits, got, clear), bits)
  {
    hide Within;
    if clear { WithinFirst(bits, !got); } else { WithinSelf(bits); }
  }

  lemma WithinFirst(a: Bits, b: Bits)
    ensures Within(a & b, a)
  {
  }

  // ----- What a walk leaves and what it hands out

  /** No thread in `ws` waits for something that holds of `bits`. */
  ghost predicate AtRest(ws: seq<Waiter>, bits: Bits) {
    forall i :: 0 <= i < |ws| ==> (ws[i].mode.all || ws[i].mode.any) && !Satisfied(ws[i].want, ws[i].mode, bits)
  }

  ghost predicate Flagged(ws: seq<Waiter>) {
    forall i :: 0 <= i < |ws| ==> ws[i].mode.all || ws[i].mode.any
  }

  lemma {:induction false} WalkShrinks(ws: seq<Waiter>, bits: Bits)
    ensures Within(Walk(ws, bits).bits, bits)
  {
    hide Within, Satisfied, Got, Consume;
    WithinSelf(bits);
    if ws != [] && (ws[0].mode.all || ws[0].mode.any) {
      var w, rest := ws[0], ws[1..];
      if Satisfied(w.want, w.mode, bits) {
        var bits1 := Consume(bits, Got(w.want, w.mode, bits), w.mode.clear);
        WalkShrinks(rest, bits1);
        ConsumeWithin(bits, Got(w.want, w.mode, bits), w.mode.clear);
        WithinTrans(Walk(rest, bits1).bits, bits1, bits);
      } else {
        WalkShrinks(rest, bits);
      }
    }
  }

  /** Although serving one thread takes bits from those behind it, the walk leaves nobody who could be served. */
  lemma {:induction false} WalkAtRest(ws: seq<Waiter>, bits: Bits)
    requires Flagged(ws)
    ensures AtRest(Walk(ws, bits).rest, Walk(ws, bits).bits)
  {
    if ws != [] {
      var w, rest := ws[0], ws[1..];
      assert forall i :: 0 <= i < |rest| ==> rest[i] == ws[i + 1];
      if Satisfied(w.want, w.mode, bits) {
        WalkAtRest(rest, Consume(bits, Got(w.want, w.mode, bits), w.mode.clear));
      } else {
        WalkAtRest(rest, bits);
        WalkShrinks(rest, bits);
        FewerBitsSatisfyLess(w.want, w.mode, bits, Walk(rest, bits).bits);
        var r := Walk(rest, bits).rest;
        assert forall i :: 0 < i < |[w] + r| ==> ([w] + r)[i] == r[i - 1];
      }
    }
  }

  /** The bits handed to consuming receivers. */
  function Consumed(ds: seq<Delivery>): Bits {
    if ds == [] then 0 else Join(if ds[0].clear then ds[0].got else 0, Consumed(ds[1..]))
  }

  function Join(a: Bits, b: Bits): Bits {
    a | b
  }

  predicate Disjoint(a: Bits, b: Bits) {
    a & b == 0
  }

  ghost predicate GotWithin(ds: seq<Delivery>, bits: Bits) {
    forall i :: 0 <= i < |ds| ==> Within(ds[i].got, bits) && ds[i].got != 0
  }

  /** No bit goes to two consuming receivers. */
  ghost predicate ConsumedOnce(ds: seq<Delivery>) {
    forall i, j :: 0 <= i < j < |ds| && ds[i].clear ==> Disjoint(ds[i].got, ds[j].got)
  }

  ghost predicate Asking(ws: seq<Waiter>) {
    forall i :: 0 <= i < |ws| ==> ws[i].want != 0
  }

  /** The walk takes away exactly what consuming receivers were told, no such bit is told twice, and nobody is
      told a bit that was not set. */
  lemma {:induction false} WalkConserves(ws: seq<Waiter>, bits: Bits)
    requires Asking(ws)
    ensures var r := Walk(ws, bits);
            r.bits == Less(bits, Consumed(r.served)) && GotWithin(r.served, bits) && ConsumedOnce(r.served)
  {
    hide Within, Satisfied, Got, Consume, Less, GotWithin, ConsumedOnce, Consumed;
    NothingServed(bits);
    if ws != [] && (ws[0].mode.all || ws[0].mode.any) {
      var w, rest := ws[0], ws[1..];
      assert forall i :: 0 <= i < |rest| ==> rest[i] == ws[i + 1];
      if Satisfied(w.want, w.mode, bits) {
        var got := Got(w.want, w.mode, bits);
        var bits1 := Consume(bits, got, w.mode.clear);
        WalkConserves(rest, bits1);
        ServeConserves(w, bits, Walk(rest, bits1).served, Walk(rest, bits1).bits);
      } else {
        WalkConserves(rest, bits);
      }
    }
  }

  lemma NothingServed(bits: Bits)
    ensures Less(bits, Consumed([])) == bits && GotWithin([], bits) && ConsumedOnce([])
  {
    assert bits & !(0 as Bits) == bits;
  }

  lemma ServeConserves(w: Waiter, bits: Bits, ds: seq<Delivery>, left: Bits)
    requires Satisfied(w.want, w.mode, bits) && w.want != 0
    requires var bits1 := Consume(bits, Got(w.want, w.mode, bits), w.mode.clear);
             left == Less(bits1, Consumed(ds)) && GotWithin(ds, bits1) && ConsumedOnce(ds)
    ensures var all := [Delivery(w.tid, Got(w.want, w.mode, bits), w.mode.clear)] + ds;
            left == Less(bits, Consumed(all)) && GotWithin(all, bits) && ConsumedOnce(all)
  {
    hide Within, Satisfied, Got, Consume, Less, Join, Disjoint;
    var got := Got(w.want, w.mode, bits);
    var bits1 := Consume(bits, got, w.mode.clear);
    var all := [Delivery(w.tid, got, w.mode.clear)] + ds;
    assert all[1..] == ds;
    ConsumeWithin(bits, got, w.mode.clear);
    GotSet(w.want, w.mode, bits);
    ConsumeMore(bits, got, w.mode.clear, Consumed(ds));
    forall i | 0 <= i < |all| ensures Within(all[i].got, bits) && all[i].got != 0 {
      if i > 0 {
        assert all[i] == ds[i - 1];
        WithinTrans(all[i].got, bits1, bits);
      }
    }
    forall i, j | 0 <= i < j < |all| && all[i].clear ensures Disjoint(all[i].got, all[j].got) {
      assert all[j] == ds[j - 1];
      if i == 0 { ApartFromRest(bits, got, all[j].got); } else { assert all[i] == ds[i - 1]; }
    }
  }

  /** `bits` without those in `gone`. */
  function Less(bits: Bits, gone: Bits): Bits {
    bits & !gone
  }

  lemma ConsumeMore(bits: Bits, got: Bits, clear: bool, more: Bits)
    ensures Less(Consume(bits, got, clear), more) == Less(bits, Join(if clear then got else 0, more))
  {
    hide Less, Join;
    if clear { LessTwice(bits, got, more); } else { JoinZero(more); }
  }

  lemma JoinZero(more: Bits)
    ensures Join(0, more) == more
  {
  }

  lemma LessTwice(bits: Bits, a: Bits, b: Bits)
    ensures Less(bits & !a, b) == Less(bits, Join(a, b))
  {
    assert !(a | b) == !a & !b;
  }

  lemma ApartFromRest(bits: Bits, a: Bits, b: Bits)
    requires Within(b, Consume(bits, a, true))
    ensures Disjoint(a, b)
  {
  }

  // ----- What AND and OR mean, bit by bit

  /** `m` is one bit. */
  predicate Single(m: Bits) {
    m != 0 && m & (m - 1) == 0
  }

  /** The lowest bit of `x`. */
  function LowBit(x: Bits): Bits {
    x & (!x + 1)
  }

  lemma LowBitIn(x: Bits)
    requires x != 0
    ensures Single(LowBit(x)) && Within(LowBit(x), x)
  {
  }

  lemma MissingBit(want: Bits, bits: Bits, m: Bits)
    requires m != 0 && Within(m, Less(want, bits))
    ensures Within(m, want) && !Within(m, bits)
  {
  }

  lemma NothingMissing(want: Bits, bits: Bits)
    ensures Within(want, bits) <==> Less(want, bits) == 0
  {
  }

  /** With AND a condition holds just if every bit asked for is set. */
  lemma AllBits(want: Bits, mode: Mode, bits: Bits)
    requires mode.all
    ensures Satisfied(want, mode, bits) <==> forall m :: Single(m) && Within(m, want) ==> Within(m, bits)
  {
    hide Single, Less, LowBit;
    assert Satisfied(want, mode, bits) == Within(want, bits);
    hide Within, Satisfied;
    if Within(want, bits) {
      forall m | Single(m) && Within(m, want) ensures Within(m, bits) { WithinTrans(m, want, bits); }
    } else {
      var x := Less(want, bits);
      NothingMissing(want, bits);
      LowBitIn(x);
      SingleIsSome(LowBit(x));
      MissingBit(want, bits, LowBit(x));
    }
  }

  lemma SingleIsSome(m: Bits)
    requires Single(m)
    ensures m != 0
  {
  }

  lemma InBoth(m: Bits, a: Bits, b: Bits)
    ensures Within(m, a & b) <==> Within(m, a) && Within(m, b)
  {
    hide Within;
    WithinFirst(a, b);
    WithinMask(a, b);
    if Within(m, a & b) {
      WithinTrans(m, a & b, a);
      WithinTrans(m, a & b, b);
    }
    if Within(m, a) && Within(m, b) { InBothBack(m, a, b); }
  }

  lemma InBothBack(m: Bits, a: Bits, b: Bits)
    requires Within(m, a) && Within(m, b)
    ensures Within(m, a & b)
  {
    AndAssociates(m, a, b);
  }

  lemma AndAssociates(a: Bits, b: Bits, c: Bits)
    ensures a & (b & c) == (a & b) & c
  {
  }

  lemma SomeInBoth(m: Bits, a: Bits, b: Bits)
    requires m != 0 && Within(m, a & b)
    ensures a & b != 0
  {
  }

  /** With OR it holds just if some bit asked for is set. */
  lemma AnyBit(want: Bits, mode: Mode, bits: Bits)
    requires !mode.all && mode.any
    ensures Satisfied(want, mode, bits) <==> exists m :: Single(m) && Within(m, want) && Within(m, bits)
  {
    hide Single, Within, LowBit;
    if Satisfied(want, mode, bits) {
      LowBitIn(want & bits);
      InBoth(LowBit(want & bits), want, bits);
    }
    if m :| Single(m) && Within(m, want) && Within(m, bits) {
      SingleIsSome(m);
      InBoth(m, want, bits);
      SomeInBoth(m, want, bits);
    }
  }

  /** A served thread is told exactly the bits that it asked for and that are set. */
  lemma GotBits(want: Bits, mode: Mode, bits: Bits, m: Bits)
    requires Satisfied(want, mode, bits)
    ensures Within(m, Got(want, mode, bits)) <==> Within(m, want) && Within(m, bits)
  {
    hide Within;
    InBoth(m, want, bits);
    if mode.all { assert Got(want, mode, bits) == want & bits; }
  }

  // ----- Receiving at once and receiving after a wait

  /** With the same bits set, a receiver that finds its condition true and one that a send wakes are told the
      same bits and leave the same bits behind. */
  lemma BothPathsAgree(s: State, t: Tid, want: Bits, mode: Mode, wait: bool)
    requires want != 0 && Satisfied(want, mode, s.pending)
    ensures var r := Walk([Waiter(t, want, mode)], s.pending);
            && RecvStep(s, t, want, mode, wait) == s.(pending := r.bits, error := s.error[t := EOK])
            && r.served == [Delivery(t, Mask(s.pending, want), mode.clear)] && r.rest == []
  {
    hide Satisfied, Got, Consume, Mask;
    SameBits(want, mode, s.pending);
    assert [Waiter(t, want, mode)][1..] == [];
  }

  lemma SameBits(want: Bits, mode: Mode, bits: Bits)
    requires Satisfied(want, mode, bits)
    ensures (mode.all || mode.any) && Got(want, mode, bits) == Mask(bits, want)
    ensures Consume(bits, Got(want, mode, bits), mode.clear) == Consume(bits, want, mode.clear)
  {
    assert want & bits == bits & want;
    assert bits & !(want & bits) == bits & !want;
  }

  // ----- Every reachable state

  ghost predicate Inv(s: State) {
    AtRest(s.waiters, s.pending) && Asking(s.waiters)
  }

  lemma {:induction false} WalkKeepsAsking(ws: seq<Waiter>, bits: Bits)
    requires Asking(ws)
    ensures Asking(Walk(ws, bits).rest)
  {
    if ws != [] && (ws[0].mode.all || ws[0].mode.any) {
      var w, rest := ws[0], ws[1..];
      assert forall i :: 0 <= i < |rest| ==> rest[i] == ws[i + 1];
      if Satisfied(w.want, w.mode, bits) {
        WalkKeepsAsking(rest, Consume(bits, Got(w.want, w.mode, bits), w.mode.clear));
      } else {
        WalkKeepsAsking(rest, bits);
      }
    }
  }

  lemma RecvInv(s: State, t: Tid, want: Bits, mode: Mode, wait: bool)
    requires Inv(s) && (mode.all || mode.any)
    ensures Inv(RecvStep(s, t, want, mode, wait))
  {
    var s' := RecvStep(s, t, want, mode, wait);
    if Satisfied(want, mode, s.pending) {
      ConsumeWithin(s.pending, want, mode.clear);
      forall i | 0 <= i < |s.waiters| && want != 0
        ensures !Satisfied(s.waiters[i].want, s.waiters[i].mode, s'.pending)
      {
        FewerBitsSatisfyLess(s.waiters[i].want, s.waiters[i].mode, s.pending, s'.pending);
      }
    } else {
      var w := Waiter(t, want, mode);
      var k, ws := Slot(s.order.flag, Waiting(s.waiters), s.order.prio, t), Line(s.order, s.waiters, w);
      assert forall i :: 0 <= i < |ws| ==>
        ws[i] == if i < k then s.waiters[i] else if i == k then w else s.waiters[i - 1];
    }
  }

  lemma {:induction false} DropKeeps(ws: seq<Waiter>, t: Tid, bits: Bits)
    requires AtRest(ws, bits) && Asking(ws)
    ensures AtRest(DropThread(ws, t), bits) && Asking(DropThread(ws, t))
  {
    if ws != [] {
      var rest := ws[1..];
      assert forall i :: 0 <= i < |rest| ==> rest[i] == ws[i + 1];
      DropKeeps(rest, t, bits);
      if ws[0].tid != t {
        var r := DropThread(rest, t);
        assert forall i :: 0 < i < |[ws[0]] + r| ==> ([ws[0]] + r)[i] == r[i - 1];
      }
    }
  }

  lemma SendInv(s: State, bits: Bits)
    requires Inv(s)
    ensures Inv(SendStep(s, bits))
  {
    hide AtRest, Asking, Walk, Join;
    RestIsFlagged(s.waiters, s.pending);
    WalkAtRest(s.waiters, Join(s.pending, bits));
    WalkKeepsAsking(s.waiters, Join(s.pending, bits));
  }

  lemma RestIsFlagged(ws: seq<Waiter>, bits: Bits)
    requires AtRest(ws, bits)
    ensures Flagged(ws)
  {
    hide Satisfied;
  }

  /** Every step leaves every suspended thread's condition false. */
  lemma StepInv(s: State, op: Op)
    requires Inv(s) && Enabled(s, op)
    ensures Inv(Next(s, op))
  {
    hide Satisfied, Consume, Walk, AtRest, Asking, DropThread, DropDelivery, FailAll;
    match op
    case Send(bits) => SendInv(s, bits);
    case Recv(t, want, mode, wait) => RecvInv(s, t, want, mode, wait);
    case Return(t) =>
    case Expire(t) => DropKeeps(s.waiters, t, s.pending);
    case Reset => NobodyWaits();
    case SetPriority(t, p) =>
  }

  lemma NobodyWaits()
    ensures AtRest([], 0) && Asking([])
  {
  }

  // ----- What a resumed thread is told

  /** Nobody waits twice or while being resumed, and a thread about to return has error RT_EOK just if a send served
      it. */
  ghost predicate Told(s: State) {
    Informed(Waiting(s.waiters), Served(s.woken), s.error, s.ready)
  }

  ghost predicate Informed(waiting: seq<Tid>, served: seq<Tid>, error: Errors, ready: set<Tid>) {
    && Distinct(waiting) && Distinct(served)
    && (forall t :: t in served ==> t in ready)
    && (forall t :: t in ready ==> t !in waiting && (ErrorOf(error, t) == EOK <==> t in served))
    && (forall t :: t in waiting ==> ErrorOf(error, t) == EOK)
  }

  lemma InformedDistinct(waiting: seq<Tid>, served: seq<Tid>, error: Errors, ready: set<Tid>)
    requires Informed(waiting, served, error, ready)
    ensures Distinct(waiting) && Distinct(served)
  {
  }

  lemma RecvInformed(waiting: seq<Tid>, served: seq<Tid>, error: Errors, ready: set<Tid>, t: Tid, slot: nat)
    requires Informed(waiting, served, error, ready) && t !in waiting && t !in ready && slot <= |waiting|
    ensures Informed(waiting, served, error[t := EOK], ready) && Informed(waiting, served, error[t := ETIMEOUT], ready)
    ensures Informed(InsertAt(waiting, slot, t), served, error[t := EOK], ready)
  {
    hide Distinct;
    InsertAtDistinct(waiting, slot, t);
  }

  lemma ServeInformed(waiting: seq<Tid>, served: seq<Tid>, rest: seq<Tid>, more: seq<Tid>, error: Errors,
                      ready: set<Tid>)
    requires Informed(waiting, served, error, ready) && Distinct(rest) && Distinct(more)
    requires forall t :: t in waiting <==> t in rest || t in more
    requires forall t :: t in rest ==> t !in more
    ensures Informed(rest, served + more, error, ready + SetOf(more))
  {
    hide Distinct;
    JoinDistinct(served, more);
  }

  lemma WaitingCons(w: Waiter, ws: seq<Waiter>)
    ensures Waiting([w] + ws) == [w.tid] + Waiting(ws)
  {
  }

  lemma ServedCons(d: Delivery, ds: seq<Delivery>)
    ensures Served([d] + ds) == [d.tid] + Served(ds)
  {
  }

  lemma ServedJoin(a: seq<Delivery>, b: seq<Delivery>)
    ensures Served(a + b) == Served(a) + Served(b)
  {
  }

  /** The walk serves each thread once or leaves it waiting. */
  lemma {:induction false} WalkThreads(ws: seq<Waiter>, bits: Bits)
    requires Distinct(Waiting(ws))
    ensures var r := Walk(ws, bits);
            && Distinct(Waiting(r.rest)) && Distinct(Served(r.served))
            && (forall t :: t in Waiting(ws) <==> t in Waiting(r.rest) || t in Served(r.served))
            && (forall t :: t in Waiting(r.rest) ==> t !in Served(r.served))
  {
    hide Satisfied, Got, Consume, Waiting, Served, Distinct;
    NoneServed();
    if ws != [] && (ws[0].mode.all || ws[0].mode.any) {
      var w, rest := ws[0], ws[1..];
      assert ws == [w] + rest;
      WaitingCons(w, rest);
      TailApart(w.tid, Waiting(rest));
      if Satisfied(w.want, w.mode, bits) {
        var got := Got(w.want, w.mode, bits);
        var r := Walk(rest, Consume(bits, got, w.mode.clear));
        WalkThreads(rest, Consume(bits, got, w.mode.clear));
        ServedCons(Delivery(w.tid, got, w.mode.clear), r.served);
        ConsDistinct(w.tid, Served(r.served));
      } else {
        var r := Walk(rest, bits);
        WalkThreads(rest, bits);
        WaitingCons(w, r.rest);
        ConsDistinct(w.tid, Waiting(r.rest));
      }
    }
  }

  lemma NoneServed()
    ensures Served([]) == [] && Distinct<Tid>([])
  {
  }

  lemma TailApart(t: Tid, ts: seq<Tid>)
    requires Distinct([t] + ts)
    ensures Distinct(ts) && t !in ts
  {
    HeadTail([t] + ts);
    assert ([t] + ts)[1..] == ts;
  }

  lemma {:induction false} DropThreads(ws: seq<Waiter>, t: Tid)
    ensures Waiting(DropThread(ws, t)) == Without(Waiting(ws), t)
  {
    if ws != [] {
      var w, rest := ws[0], ws[1..];
      assert ws == [w] + rest;
      WaitingCons(w, rest);
      assert Waiting(ws)[1..] == Waiting(rest);
      DropThreads(rest, t);
      WaitingCons(w, DropThread(rest, t));
    }
  }

  lemma {:induction false} DropServed(ds: seq<Delivery>, t: Tid)
    ensures Served(DropDelivery(ds, t)) == Without(Served(ds), t)
  {
    if ds != [] {
      var d, rest := ds[0], ds[1..];
      assert ds == [d] + rest;
      ServedCons(d, rest);
      assert Served(ds)[1..] == Served(rest);
      DropServed(rest, t);
      ServedCons(d, DropDelivery(rest, t));
    }
  }

  lemma WaitingLine(o: Order, ws: seq<Waiter>, w: Waiter)
    ensures Waiting(Line(o, ws, w)) == Place(o, Waiting(ws), w.tid)
  {
  }

  lemma JoinDistinct(a: seq<Tid>, b: seq<Tid>)
    requires Distinct(a) && Distinct(b) && forall t :: t in a ==> t !in b
    ensures Distinct(a + b)
  {
    var c := a + b;
    forall i, j | 0 <= i < j < |c| ensures c[i] != c[j] {
      assert i < |a| ==> c[i] in a;
      assert j >= |a| ==> c[j] in b;
    }
  }

  lemma SendTold(s: State, bits: Bits)
    requires Told(s)
    ensures Told(SendStep(s, bits))
  {
    hide Walk, Waiting, Served, Distinct, Informed, Join;
    if bits == 0 { return; }
    InformedDistinct(Waiting(s.waiters), Served(s.woken), s.error, s.ready);
    var r := Walk(s.waiters, Join(s.pending, bits));
    WalkThreads(s.waiters, Join(s.pending, bits));
    ServedJoin(s.woken, r.served);
    ServeInformed(Waiting(s.waiters), Served(s.woken), Waiting(r.rest), Served(r.served), s.error, s.ready);
  }

  lemma RecvTold(s: State, t: Tid, want: Bits, mode: Mode, wait: bool)
    requires Told(s) && Enabled(s, Recv(t, want, mode, wait))
    ensures Told(RecvStep(s, t, want, mode, wait))
  {
    hide Satisfied, Consume, Waiting, Served, Informed;
    WaitingLine(s.order, s.waiters, Waiter(t, want, mode));
    RecvInformed(Waiting(s.waiters), Served(s.woken), s.error, s.ready, t,
                 Slot(s.order.flag, Waiting(s.waiters), s.order.prio, t));
  }

  lemma ReturnTold(s: State, t: Tid)
    requires Told(s) && Enabled(s, Return(t))
    ensures Told(Next(s, Return(t)))
  {
    hide DropDelivery, Waiting, Served, Distinct;
    DropServed(s.woken, t);
    WithoutDistinct(Served(s.woken), t);
  }

  lemma ExpireTold(s: State, t: Tid)
    requires Told(s) && Enabled(s, Expire(t))
    ensures Told(Next(s, Expire(t)))
  {
    hide DropThread, Waiting, Served, Distinct;
    DropThreads(s.waiters, t);
    WithoutDistinct(Waiting(s.waiters), t);
  }

  lemma ResetTold(s: State)
    requires Told(s)
    ensures Told(Next(s, Reset))
  {
    FailAllEverywhere(s.error, Waiting(s.waiters));
  }

  /** Every step keeps what the resumed threads are told. */
  lemma StepTold(s: State, op: Op)
    requires Told(s) && Enabled(s, op)
    ensures Told(Next(s, op))
  {
    hide Told;
    match op
    case Send(bits) => SendTold(s, bits);
    case Recv(t, want, mode, wait) => RecvTold(s, t, want, mode, wait);
    case Return(t) => ReturnTold(s, t);
    case Expire(t) => ExpireTold(s, t);
    case Reset => ResetTold(s);
    case SetPriority(t, p) => PriorityTold(s, t, p);
  }

  lemma PriorityTold(s: State, t: Tid, p: int)
    requires Told(s)
    ensures Told(Next(s, SetPriority(t, p)))
  {
  }

  /** A blocked receive returns RT_EOK just if a send served the thread. */
  lemma ReturnsOkExactly(s: State, t: Tid)
    requires Told(s) && Enabled(s, Return(t))
    ensures ErrorOf(s.error, t) == EOK <==> t in Served(s.woken)
  {
  }

  /** A thread taken off the list finds the reason in its error, and it stays there until the thread runs. */
  lemma StepErrors(s: State, op: Op, t: Tid)
    requires Told(s) && Enabled(s, op)
    ensures var s' := Next(s, op);
            && (t in Waiting(s.waiters) && t !in Waiting(s'.waiters) ==>
                  && t in s'.ready
                  && ErrorOf(s'.error, t) == if op.Send? then EOK else if op.Expire? then ETIMEOUT else ERROR)
            && (t in s.ready && t in s'.ready ==> ErrorOf(s'.error, t) == ErrorOf(s.error, t))
            && (t in s.ready && t !in s'.ready ==> op == Return(t))
            && (op.Expire? ==> op.t !in Waiting(s'.waiters)) && (op.Reset? ==> s'.waiters == [] && s'.pending == 0)
  {
    hide Walk, DropThread, DropDelivery, FailAll, Satisfied, Consume, Join, Waiting, Served;
    match op
    case Send(bits) => WalkThreads(s.waiters, Join(s.pending, bits));
    case Recv(u, want, mode, wait) => WaitingLine(s.order, s.waiters, Waiter(u, want, mode));
    case Expire(u) =>
      DropThreads(s.waiters, u);
      WithoutDistinct(Waiting(s.waiters), u);
    case Reset => FailAllEverywhere(s.error, Waiting(s.waiters));
    case _ =>
  }

  // ----- No bit is lost

  /** What a receive returns; one that blocks returns later. */
  datatype Answer = Answer(err: Err, got: Bits)

  function Result(s: State, op: Op): Answer {
    match op
    case Send(bits) => Answer(if bits == 0 then ERROR else EOK, 0)
    case Recv(_, want, mode, wait) =>
      if want == 0 then Answer(ERROR, 0)
      else if Satisfied(want, mode, s.pending) then Answer(EOK, Mask(s.pending, want))
      else Answer(if wait then Blocked else ETIMEOUT, 0)
    case _ => Answer(EOK, 0)
  }

  /** The deliveries a step adds for threads it serves. */
  ghost function Added(s: State, s': State): seq<Delivery> {
    if |s.woken| <= |s'.woken| then s'.woken[|s.woken|..] else []
  }

  /** By the calls and the deliveries since the last reset: the bits sent, and those handed to consuming receivers. */
  datatype Tally = Tally(sent: Bits, handed: Bits)

  ghost function Count(s: State, op: Op, n: Tally): Tally
    requires Enabled(s, op)
  {
    match op
    case Send(bits) => Tally(Join(n.sent, bits), Join(n.handed, Consumed(Added(s, Next(s, op)))))
    case Recv(_, _, mode, _) =>
      if Result(s, op).err == EOK && mode.clear then n.(handed := Join(n.handed, Result(s, op).got)) else n
    case Reset => Tally(0, 0)
    case _ => n
  }

  ghost function Counted(s: State, ops: seq<Op>, n: Tally): Tally
    requires IsRun(s, ops)
    decreases |ops|
  {
    if ops == [] then n else Counted(Next(s, ops[0]), ops[1..], Count(s, ops[0], n))
  }

  /** Each bit sent is pending or was handed to a consuming receiver, and no others are. */
  predicate Accounted(pending: Bits, n: Tally) {
    n.sent == Join(pending, n.handed)
  }

  lemma JoinWithin(a: Bits, b: Bits, c: Bits)
    requires Within(a, c) && Within(b, c)
    ensures Within(Join(a, b), c)
  {
    assert (a | b) & c == (a & c) | (b & c);
  }

  lemma NothingWithin(a: Bits)
    ensures Within(0, a)
  {
  }

  lemma {:induction false} ConsumedWithin(ds: seq<Delivery>, bits: Bits)
    requires GotWithin(ds, bits)
    ensures Within(Consumed(ds), bits)
  {
    hide Within, Join;
    NothingWithin(bits);
    if ds != [] {
      var rest := ds[1..];
      assert forall i :: 0 <= i < |rest| ==> rest[i] == ds[i + 1];
      ConsumedWithin(rest, bits);
      JoinWithin(if ds[0].clear then ds[0].got else 0, Consumed(rest), bits);
    }
  }

  lemma LessThenBack(bits: Bits, gone: Bits)
    requires Within(gone, bits)
    ensures Join(Less(bits, gone), gone) == bits && Disjoint(Less(bits, gone), gone)
  {
  }

  /** A send adds its bits to those that are set; what it hands to consuming receivers is gone from the set, and all
      the rest stays. */
  lemma SendConserves(s: State, bits: Bits)
    requires Inv(s) && bits != 0
    ensures var s' := SendStep(s, bits); var gone := Consumed(Added(s, s'));
            && s'.woken == s.woken + Added(s, s')
            && Join(s'.pending, gone) == Join(s.pending, bits) && Disjoint(s'.pending, gone)
            && GotWithin(Added(s, s'), Join(s.pending, bits)) && ConsumedOnce(Added(s, s'))
  {
    hide AtRest, Walk, Join, Less, Within, Disjoint, GotWithin, ConsumedOnce, Consumed;
    var r := Walk(s.waiters, Join(s.pending, bits));
    assert Added(s, SendStep(s, bits)) == r.served;
    WalkConserves(s.waiters, Join(s.pending, bits));
    ConsumedWithin(r.served, Join(s.pending, bits));
    LessThenBack(Join(s.pending, bits), Consumed(r.served));
  }

  lemma MaskThenBack(bits: Bits, want: Bits, clear: bool)
    ensures var gone := if clear then Mask(bits, want) else 0;
            Join(Consume(bits, want, clear), gone) == bits && Disjoint(Consume(bits, want, clear), gone)
  {
    if clear { MaskBack(bits, want); } else { JoinNothing(bits); }
  }

  lemma MaskBack(bits: Bits, want: Bits)
    ensures Join(bits & !want, bits & want) == bits && Disjoint(bits & !want, bits & want)
  {
  }

  lemma JoinNothing(bits: Bits)
    ensures Join(bits, 0) == bits && Disjoint(bits, 0)
  {
  }

  /** A receive that succeeds takes out of the set exactly what it reports, if it consumes, and nothing otherwise. */
  lemma RecvConserves(s: State, t: Tid, want: Bits, mode: Mode, wait: bool)
    ensures var op := Recv(t, want, mode, wait); var s', a := RecvStep(s, t, want, mode, wait), Result(s, op);
            && (a.err != EOK ==> s'.pending == s.pending)
            && (a.err == EOK ==>
                  var gone := if mode.clear then a.got else 0;
                  Join(s'.pending, gone) == s.pending && Disjoint(s'.pending, gone))
  {
    hide Satisfied, Mask, Consume, Join, Disjoint;
    MaskThenBack(s.pending, want, mode.clear);
  }

  lemma Regroup(pending: Bits, pending': Bits, gone: Bits, bits: Bits, handed: Bits)
    requires Join(pending', gone) == Join(pending, bits)
    ensures Join(Join(pending, handed), bits) == Join(pending', Join(handed, gone))
  {
    hide Join;
    JoinSwaps(pending, handed, bits);
    JoinSwaps(pending', handed, gone);
    JoinAssociates(pending', handed, gone);
  }

  lemma JoinSwaps(a: Bits, b: Bits, c: Bits)
    ensures Join(Join(a, b), c) == Join(Join(a, c), b)
  {
    hide Join;
    JoinAssociates(a, b, c);
    JoinCommutes(b, c);
    JoinAssociates(a, c, b);
  }

  lemma JoinCommutes(a: Bits, b: Bits)
    ensures Join(a, b) == Join(b, a)
  {
  }

  lemma JoinAssociates(a: Bits, b: Bits, c: Bits)
    ensures Join(Join(a, b), c) == Join(a, Join(b, c))
  {
  }

  lemma StepAccounted(s: State, op: Op, n: Tally)
    requires Inv(s) && Enabled(s, op) && Accounted(s.pending, n)
    ensures Accounted(Next(s, op).pending, Count(s, op, n))
  {
    hide AtRest, Asking, Satisfied, Consume, Mask, Join, Walk, DropThread, DropDelivery, FailAll, Consumed, Disjoint,
      GotWithin, ConsumedOnce;
    JoinZero(n.handed);
    ZeroJoin(n.sent);
    match op
    case Send(bits) =>
      if bits != 0 {
        SendConserves(s, bits);
        Regroup(s.pending, Next(s, op).pending, Consumed(Added(s, Next(s, op))), bits, n.handed);
      } else {
        assert Added(s, s) == [];
        NothingServed(0);
        ConsumedNothing();
        ZeroJoin(n.handed);
      }
    case Recv(t, want, mode, wait) =>
      RecvConserves(s, t, want, mode, wait);
      ZeroJoin(s.pending);
      ZeroJoin(Next(s, op).pending);
      var gone := if mode.clear then Result(s, op).got else 0;
      if Result(s, op).err == EOK {
        Regroup(s.pending, Next(s, op).pending, gone, 0, n.handed);
        ZeroJoin(Join(s.pending, n.handed));
        ZeroJoin(n.handed);
      }
    case Reset => JoinZero(0);
    case _ =>
  }

  lemma ZeroJoin(a: Bits)
    ensures Join(a, 0) == a
  {
  }

  lemma ConsumedNothing()
    ensures Consumed([]) == 0
  {
  }

  // ----- What a thread asked for

  /** What each thread called for last, as its caller gave it. */
  type Requests = map<Tid, (Bits, Mode)>

  function Ask(asked: Requests, op: Op): Requests {
    match op
    case Recv(t, want, mode, _) => asked[t := (want, mode)]
    case _ => asked
  }

  function Asked(ops: seq<Op>, asked: Requests): Requests
    decreases |ops|
  {
    if ops == [] then asked else Asked(ops[1..], Ask(asked, ops[0]))
  }

  predicate WaitsAs(w: Waiter, asked: Requests) {
    w.tid in asked && asked[w.tid] == (w.want, w.mode)
  }

  /** A thread that asked for all its bits is told all of them, one that asked for any is told some of them, and it
      consumes them just if it asked to. */
  predicate ServedAs(d: Delivery, asked: Requests) {
    && d.tid in asked && d.got != 0 && d.clear == asked[d.tid].1.clear
    && (if asked[d.tid].1.all then d.got == asked[d.tid].0 else Within(d.got, asked[d.tid].0))
  }

  ghost predicate AllWaitAs(ws: seq<Waiter>, asked: Requests) {
    forall i :: 0 <= i < |ws| ==> WaitsAs(ws[i], asked)
  }

  ghost predicate AllServedAs(ds: seq<Delivery>, asked: Requests) {
    forall i :: 0 <= i < |ds| ==> ServedAs(ds[i], asked)
  }

  ghost predicate AsAsked(s: State, asked: Requests) {
    AllWaitAs(s.waiters, asked) && AllServedAs(s.woken, asked)
  }

  lemma WaitAsCons(w: Waiter, ws: seq<Waiter>, asked: Requests)
    ensures AllWaitAs([w] + ws, asked) <==> WaitsAs(w, asked) && AllWaitAs(ws, asked)
  {
    var all := [w] + ws;
    assert all[0] == w && forall i :: 0 <= i < |ws| ==> ws[i] == all[i + 1];
  }

  lemma ServedAsJoin(a: seq<Delivery>, b: seq<Delivery>, asked: Requests)
    requires AllServedAs(a, asked) && AllServedAs(b, asked)
    ensures AllServedAs(a + b, asked)
  {
  }

  lemma NobodyServed(asked: Requests)
    ensures AllServedAs([], asked)
  {
  }

  lemma OneServed(d: Delivery, asked: Requests)
    requires ServedAs(d, asked)
    ensures AllServedAs([d], asked)
  {
  }

  lemma GotAsked(w: Waiter, bits: Bits, asked: Requests)
    requires WaitsAs(w, asked) && w.want != 0 && Satisfied(w.want, w.mode, bits)
    ensures ServedAs(Delivery(w.tid, Got(w.want, w.mode, bits), w.mode.clear), asked)
  {
    hide Within;
    WithinFirst(w.want, bits);
  }

  lemma {:induction false} WalkAsAsked(ws: seq<Waiter>, bits: Bits, asked: Requests)
    requires Asking(ws) && AllWaitAs(ws, asked)
    ensures AllWaitAs(Walk(ws, bits).rest, asked) && AllServedAs(Walk(ws, bits).served, asked)
  {
    hide Satisfied, Got, Consume, WaitsAs, ServedAs, AllWaitAs, AllServedAs;
    NobodyServed(asked);
    if ws != [] && (ws[0].mode.all || ws[0].mode.any) {
      var w, rest := ws[0], ws[1..];
      assert ws == [w] + rest;
      assert forall i :: 0 <= i < |rest| ==> rest[i] == ws[i + 1];
      WaitAsCons(w, rest, asked);
      if Satisfied(w.want, w.mode, bits) {
        var got := Got(w.want, w.mode, bits);
        var r := Walk(rest, Consume(bits, got, w.mode.clear));
        GotAsked(w, bits, asked);
        WalkAsAsked(rest, Consume(bits, got, w.mode.clear), asked);
        OneServed(Delivery(w.tid, got, w.mode.clear), asked);
        ServedAsJoin([Delivery(w.tid, got, w.mode.clear)], r.served, asked);
      } else {
        WalkAsAsked(rest, bits, asked);
        WaitAsCons(w, Walk(rest, bits).rest, asked);
      }
    }
  }

  lemma {:induction false} DropWaitsAs(ws: seq<Waiter>, t: Tid, asked: Requests)
    requires AllWaitAs(ws, asked)
    ensures AllWaitAs(DropThread(ws, t), asked)
  {
    hide WaitsAs;
    if ws != [] {
      var rest := ws[1..];
      assert forall i :: 0 <= i < |rest| ==> rest[i] == ws[i + 1];
      DropWaitsAs(rest, t, asked);
    }
  }

  lemma {:induction false} DropServedAs(ds: seq<Delivery>, t: Tid, asked: Requests)
    requires AllServedAs(ds, asked)
    ensures AllServedAs(DropDelivery(ds, t), asked)
  {
    hide ServedAs;
    if ds != [] {
      var rest := ds[1..];
      assert forall i :: 0 <= i < |rest| ==> rest[i] == ds[i + 1];
      DropServedAs(rest, t, asked);
    }
  }

  lemma RecvAsAsked(s: State, t: Tid, want: Bits, mode: Mode, wait: bool, asked: Requests)
    requires Told(s) && Enabled(s, Recv(t, want, mode, wait)) && AsAsked(s, asked)
    ensures AsAsked(RecvStep(s, t, want, mode, wait), asked[t := (want, mode)])
  {
    hide Satisfied, Consume, Within;
    var asked' := asked[t := (want, mode)];
    forall i | 0 <= i < |s.waiters| ensures WaitsAs(s.waiters[i], asked') {
      assert WaitsAs(s.waiters[i], asked) && Waiting(s.waiters)[i] == s.waiters[i].tid;
    }
    forall i | 0 <= i < |s.woken| ensures ServedAs(s.woken[i], asked') {
      assert ServedAs(s.woken[i], asked) && Served(s.woken)[i] == s.woken[i].tid;
    }
    var w := Waiter(t, want, mode);
    var k, ws := Slot(s.order.flag, Waiting(s.waiters), s.order.prio, t), Line(s.order, s.waiters, w);
    assert forall i :: 0 <= i < |ws| ==>
      ws[i] == if i < k then s.waiters[i] else if i == k then w else s.waiters[i - 1];
  }

  lemma StepAsAsked(s: State, op: Op, asked: Requests)
    requires Inv(s) && Told(s) && Enabled(s, op) && AsAsked(s, asked)
    ensures AsAsked(Next(s, op), Ask(asked, op))
  {
    hide AtRest, Asking, Informed, WaitsAs, ServedAs, AllServedAs, Walk, DropThread, DropDelivery, FailAll, Join,
      RecvStep;
    match op
    case Send(bits) =>
      var r := Walk(s.waiters, Join(s.pending, bits));
      WalkAsAsked(s.waiters, Join(s.pending, bits), asked);
      ServedAsJoin(s.woken, r.served, asked);
    case Recv(t, want, mode, wait) => RecvAsAsked(s, t, want, mode, wait, asked);
    case Return(t) => DropServedAs(s.woken, t, asked);
    case Expire(t) => DropWaitsAs(s.waiters, t, asked);
    case _ =>
  }

  // ----- The order of service

  ghost predicate Queued(s: State) {
    InLine(s.order, Waiting(s.waiters))
  }

  /** A change of priority lets the thread, if it waits, fit between its neighbours. */
  ghost predicate Calm(s: State, op: Op) {
    op.SetPriority? ==> FitsBetween(s.order, Waiting(s.waiters), op.t, op.p)
  }

  lemma ConsInLine(o: Order, t: Tid, ts: seq<Tid>, rest: seq<Tid>)
    requires InLine(o, [t] + ts) && InLine(o, rest) && forall u :: u in rest ==> u in ts
    ensures InLine(o, [t] + rest)
  {
    var rel, all := Service(o), [t] + ts;
    forall j | 0 <= j < |rest| ensures rel(t, rest[j]) {
      assert rest[j] in rest;
      var k :| 0 <= k < |ts| && ts[k] == rest[j];
      assert all[k + 1] == rest[j] && rel(all[0], all[k + 1]);
    }
    assert all[0] in all;
    InsertOrdered(rest, 0, t, rel);
    assert [t] + rest == InsertAt(rest, 0, t);
  }

  /** Those the walk leaves waiting keep their order. */
  lemma {:induction false} WalkInLine(o: Order, ws: seq<Waiter>, bits: Bits)
    requires InLine(o, Waiting(ws))
    ensures InLine(o, Waiting(Walk(ws, bits).rest))
    ensures forall t :: t in Waiting(Walk(ws, bits).rest) ==> t in Waiting(ws)
  {
    hide Satisfied, Got, Consume, Waiting, InLine;
    if ws != [] && (ws[0].mode.all || ws[0].mode.any) {
      var w, rest := ws[0], ws[1..];
      assert ws == [w] + rest;
      WaitingCons(w, rest);
      assert Waiting(ws)[1..] == Waiting(rest);
      TailInLine(o, Waiting(ws));
      if Satisfied(w.want, w.mode, bits) {
        WalkInLine(o, rest, Consume(bits, Got(w.want, w.mode, bits), w.mode.clear));
      } else {
        var r := Walk(rest, bits).rest;
        WalkInLine(o, rest, bits);
        WaitingCons(w, r);
        ConsInLine(o, w.tid, Waiting(rest), Waiting(r));
      }
    }
  }

  /** A step keeps the wait list in the order of service if and only if it is calm. */
  lemma StepQueued(s: State, op: Op)
    requires Told(s) && Queued(s) && Enabled(s, op)
    ensures Queued(Next(s, op)) <==> Calm(s, op)
  {
    hide InLine, FitsBetween, Walk, DropThread, Satisfied, Consume, Join, Waiting, FailAll;
    var o, ts := s.order, Waiting(s.waiters);
    match op
    case Send(bits) => WalkInLine(o, s.waiters, Join(s.pending, bits));
    case Recv(t, want, mode, wait) =>
      WaitingLine(o, s.waiters, Waiter(t, want, mode));
      SuspendInLine(o, ts, t);
    case Return(t) =>
    case Expire(t) =>
      DropThreads(s.waiters, t);
      WithoutInLine(o, ts, t);
    case Reset =>
      NobodyInLine(o);
      assert Waiting([]) == [];
    case SetPriority(t, p) => SetPriorityInLine(o, ts, t, p);
  }

  ghost predicate IsRun(s: State, ops: seq<Op>)
    decreases |ops|
  {
    ops != [] ==> Enabled(s, ops[0]) && IsRun(Next(s, ops[0]), ops[1..])
  }

  ghost function After(s: State, ops: seq<Op>): State
    requires IsRun(s, ops)
    decreases |ops|
  {
    if ops == [] then s else After(Next(s, ops[0]), ops[1..])
  }

  lemma {:induction false} RunFrom(s: State, ops: seq<Op>)
    requires Inv(s) && Told(s) && IsRun(s, ops)
    ensures Inv(After(s, ops)) && Told(After(s, ops))
    decreases |ops|
  {
    if ops != [] {
      StepInv(s, ops[0]);
      StepTold(s, ops[0]);
      RunFrom(Next(s, ops[0]), ops[1..]);
    }
  }

  function Fresh(flag: Flag, prio: Priorities): State {
    State(0, Order(flag, prio, map[], 0), [], [], map[], {})
  }

  /** In every reachable state no suspended thread's condition holds of the event set, and the threads about to return
      know whether they were served. */
  lemma EveryRunAtRest(flag: Flag, prio: Priorities, ops: seq<Op>)
    requires IsRun(Fresh(flag, prio), ops)
    ensures var s := After(Fresh(flag, prio), ops); AtRest(s.waiters, s.pending) && Told(s)
  {
    RunFrom(Fresh(flag, prio), ops);
  }

  lemma {:induction false} RunAccounted(s: State, ops: seq<Op>, n: Tally, asked: Requests)
    requires Inv(s) && Told(s) && IsRun(s, ops) && Accounted(s.pending, n) && AsAsked(s, asked)
    ensures Accounted(After(s, ops).pending, Counted(s, ops, n)) && AsAsked(After(s, ops), Asked(ops, asked))
    decreases |ops|
  {
    hide Inv, Told, Accounted, AsAsked;
    if ops != [] {
      StepInv(s, ops[0]);
      StepTold(s, ops[0]);
      StepAccounted(s, ops[0], n);
      StepAsAsked(s, ops[0], asked);
      RunAccounted(Next(s, ops[0]), ops[1..], Count(s, ops[0], n), Ask(asked, ops[0]));
    }
  }

  /** In every run each bit sent since the last reset is set or was handed to a consuming receiver, and no other bit
      is; waiting threads wait for what they asked for, and served ones were told what they asked for. */
  lemma EveryRunAccounted(flag: Flag, prio: Priorities, ops: seq<Op>)
    requires IsRun(Fresh(flag, prio), ops)
    ensures var s := After(Fresh(flag, prio), ops);
            && Accounted(s.pending, Counted(Fresh(flag, prio), ops, Tally(0, 0)))
            && AsAsked(s, Asked(ops, map[]))
  {
    JoinZero(0);
    RunAccounted(Fresh(flag, prio), ops, Tally(0, 0), map[]);
  }

  /** The wait list is in line in this state and after every step of the run. */
  ghost predicate AlwaysQueued(s: State, ops: seq<Op>)
    requires IsRun(s, ops)
    decreases |ops|
  {
    Queued(s) && (ops != [] ==> AlwaysQueued(Next(s, ops[0]), ops[1..]))
  }

  ghost predicate CalmRun(s: State, ops: seq<Op>)
    requires IsRun(s, ops)
    decreases |ops|
  {
    ops != [] ==> Calm(s, ops[0]) && CalmRun(Next(s, ops[0]), ops[1..])
  }

  lemma {:induction false} CalmFrom(s: State, ops: seq<Op>)
    requires Told(s) && Queued(s) && IsRun(s, ops)
    ensures AlwaysQueued(s, ops) <==> CalmRun(s, ops)
    decreases |ops|
  {
    hide Told, Queued, Calm;
    if ops != [] {
      StepTold(s, ops[0]);
      StepQueued(s, ops[0]);
      if Calm(s, ops[0]) { CalmFrom(Next(s, ops[0]), ops[1..]); }
    }
  }

  /** The wait list keeps the order of service throughout a run if and only if its priority changes are calm. */
  lemma EveryRunQueued(flag: Flag, prio: Priorities, ops: seq<Op>)
    requires IsRun(Fresh(flag, prio), ops)
    ensures AlwaysQueued(Fresh(flag, prio), ops) <==> CalmRun(Fresh(flag, prio), ops)
  {
    CalmFrom(Fresh(flag, prio), ops);
  }
}

/** rt_event with its suspend list as a ring of thread nodes, walked while it changes. */
module Event {
  import opened Machine
  import opened WaitList
  import opened CircularList
  import opened ListService
  import opened ServiceOrder
  import opened ThreadError
  import opened EventSteps

  /** The suspended threads `ts` with what they wait for. */
  ghost function Describe(ts: seq<Tid>, wants: map<Tid, Bits>, modes: map<Tid, Mode>): (ws: seq<Waiter>)
    ensures |ws| == |ts|
    ensures forall i :: 0 <= i < |ts| ==> ws[i] == Describe1(ts[i], wants, modes)
  {
    seq(|ts|, i requires 0 <= i < |ts| => Describe1(ts[i], wants, modes))
  }

  function Describe1(t: Tid, wants: map<Tid, Bits>, modes: map<Tid, Mode>): Waiter {
    Waiter(t, if t in wants then wants[t] else 0, if t in modes then modes[t] else Mode(false, false, false))
  }

  class Event {
    const flag: Flag
    const list: nat                    // the address of suspend_thread
    const lists: Lists
    var prio: Priorities               // current_priority of the threads
    var bits: Bits                     // set
    var wants: map<Tid, Bits>          // event_set of the threads
    var modes: map<Tid, Mode>          // event_info of the threads
    var error: Errors                  // error of the threads
    ghost var waiters: seq<Tid>
    ghost var woken: seq<Delivery>
    ghost var ready: set<Tid>
    ghost var order: Order             // carries the numbers drawn

    ghost function View(): State
      reads this
    {
      State(bits, order.(flag := flag, prio := prio), Describe(waiters, wants, modes), woken, error, ready)
    }

    ghost predicate Linked()
      reads this, lists
    {
      Listed() && Kept(woken, waiters, wants)
    }

    ghost predicate Listed()
      reads this, lists
    {
      && Ring(lists.next, lists.prev, list, waiters) && list !in waiters
      && (forall t :: t in waiters ==> t in wants && t in modes)
    }

    /** rt_event_init. */
    constructor (mode: Flag, head: nat, priorities: Priorities)
      ensures Linked() && View() == Fresh(mode, priorities) && fresh(lists) && list == head
    {
      flag, list, prio := mode, head, priorities;
      bits, wants, modes, error := 0, map[], map[], map[];
      lists := new Lists();
      waiters, woken, ready, order := [], [], {}, Fresh(mode, priorities).order;
      new;
      lists.Init(list);
    }

    /** rt_event_send. */
    method Send(set_: Bits) returns (r: Err)
      requires Linked()
      modifies this, lists
      ensures Linked() && View() == Next(old(View()), Op.Send(set_))
      ensures Flagged(old(View()).waiters) ==> r == if set_ == 0 then ERROR else EOK
    {
      hide Ring, Walk, Describe, Kept, Served, Flagged, Join;
      if set_ == 0 {
        return ERROR;
      }
      bits := Join(bits, set_);
      ghost var served := Walk(View().waiters, bits).served;
      r := WalkList();
      ready := ready + SetOf(Served(served));
    }

    /** The loop of rt_event_send. */
    method WalkList() returns (r: Err)
      requires Linked()
      modifies this, lists
      ensures Linked()
      ensures var w := Walk(old(View()).waiters, old(bits));
              bits == w.bits && Describe(waiters, wants, modes) == w.rest && woken == old(woken) + w.served
      ensures error == old(error) && ready == old(ready) && order == old(order) && prio == old(prio)
      ensures Flagged(old(View()).waiters) ==> r == EOK
    {
      hide Satisfied, Got, Consume, Ring, Walk, Progress, Describe, Flagged, Kept;
      ghost var goal, was := Walk(View().waiters, bits), woken;
      ghost var kept: seq<Tid>, todo := [], waiters;
      ProgressStarts(goal, was, Describe(todo, wants, modes), bits);
      var n := First();
      while n != list
        invariant Linked() && waiters == kept + todo && n == (if todo == [] then list else todo[0])
        invariant error == old(error) && ready == old(ready) && order == old(order) && prio == old(prio)
        invariant Progress(goal, was, Describe(kept, wants, modes), Describe(todo, wants, modes), bits, woken)
        invariant Flagged(old(View()).waiters) ==> Flagged(Describe(todo, wants, modes))
        decreases |todo|
      {
        ghost var rest := todo[1..];
        ghost var ks, ws := Describe(kept, wants, modes), Describe(todo, wants, modes);
        FlaggedCons(todo, wants, modes);
        assert n in waiters;
        if !modes[n].all && !modes[n].any {
          ProgressStops(goal, was, ks, ws, bits, woken);
          DescribeJoin(kept, todo, wants, modes);
          return EINVAL;
        }
        var status := Satisfied(wants[n], modes[n], bits);
        var next := Follow(n, |kept|);
        if status {
          ServeNext(n, kept, todo, goal, was);
        } else {
          SkipNext(goal, was, kept, todo, wants, modes, bits, woken);
          kept := kept + [n];
        }
        todo := rest;
        n := next;
      }
      ProgressEnds(goal, was, Describe(kept, wants, modes), bits, woken);
      assert todo == [] && waiters == kept;
      return EOK;
    }

    /** Serves the first thread of `todo`. */
    method ServeNext(n: nat, ghost kept: seq<Tid>, ghost todo: seq<Tid>, ghost goal: Walked, ghost was: seq<Delivery>)
      requires Linked() && waiters == kept + todo && todo != [] && todo[0] == n
      requires Progress(goal, was, Describe(kept, wants, modes), Describe(todo, wants, modes), bits, woken)
      requires var w := Describe1(n, wants, modes); (w.mode.all || w.mode.any) && Satisfied(w.want, w.mode, bits)
      modifies this, lists
      ensures Linked() && waiters == kept + todo[1..] && modes == old(modes)
      ensures Progress(goal, was, Describe(kept, wants, modes), Describe(todo[1..], wants, modes), bits, woken)
      ensures Describe(todo[1..], wants, modes) == old(Describe(todo[1..], wants, modes))
      ensures error == old(error) && ready == old(ready) && order == old(order) && prio == old(prio)
    {
      hide Satisfied, Got, Consume, Ring, Walk, Progress, Describe;
      ghost var wants0 := wants;
      DescribeCons(todo, wants, modes);
      ProgressServes(goal, was, Describe(kept, wants, modes), Describe(todo, wants, modes), bits, woken);
      Serve(n, |kept|);
      assert waiters == kept + todo[1..];
      DescribeFrame(kept, wants0, wants, modes, n);
      DescribeFrame(todo[1..], wants0, wants, modes, n);
    }

    method First() returns (n: nat)
      requires Linked()
      ensures n == if waiters == [] then list else waiters[0]
    {
      assert Link(lists.next, lists.prev, At(list, waiters, 0), At(list, waiters, 1));
      n := lists.next[list];
    }

    /** The node behind the one on place `k`. */
    method Follow(n: nat, ghost k: nat) returns (next: nat)
      requires Linked() && k < |waiters| && waiters[k] == n
      ensures next == if k + 1 < |waiters| then waiters[k + 1] else list
    {
      assert Link(lists.next, lists.prev, At(list, waiters, k + 1), At(list, waiters, k + 2));
      next := lists.next[n];
    }

    /** Tells the satisfied thread on place `k` its bits, consumes them if asked to, and resumes it. */
    method Serve(n: nat, ghost k: nat)
      requires Linked() && k < |waiters| && waiters[k] == n
      modifies this, lists
      ensures Linked() && waiters == Drop(old(waiters), k) && n !in waiters
      ensures var w := Describe1(n, old(wants), old(modes)); var got := Got(w.want, w.mode, old(bits));
              bits == Consume(old(bits), got, w.mode.clear) && woken == old(woken) + [Delivery(n, got, w.mode.clear)]
      ensures modes == old(modes) && error == old(error) && ready == old(ready) && order == old(order)
        && prio == old(prio)
      ensures forall t :: t != n ==> (t in wants <==> t in old(wants)) && (t in wants ==> wants[t] == old(wants)[t])
    {
      hide Ring, Got, Consume;
      assert n in waiters;
      ghost var w := Describe1(n, wants, modes);
      ghost var d := Delivery(n, Got(w.want, w.mode, bits), w.mode.clear);
      Distinctly();
      Dropped(k);
      KeptGrows(woken, waiters, wants, d, Drop(waiters, k));
      Tell(n);
      Resume(n, k);
    }

    /** Settles which bits thread `n` receives. */
    method Tell(n: nat)
      requires n in wants && n in modes
      modifies this`wants, this`bits, this`woken
      ensures var w := Describe1(n, old(wants), modes); var got := Got(w.want, w.mode, old(bits));
              && bits == Consume(old(bits), got, w.mode.clear) && woken == old(woken) + [Delivery(n, got, w.mode.clear)]
              && wants == old(wants)[n := got]
    {
      hide Got, Consume;
      wants := wants[n := Got(wants[n], modes[n], bits)];
      bits := Consume(bits, wants[n], modes[n].clear);
      woken := woken + [Delivery(n, wants[n], modes[n].clear)];
    }

    /** rt_thread_resume on the thread on place `k`. */
    method Resume(n: nat, ghost k: nat)
      requires Listed() && k < |waiters| && waiters[k] == n
      modifies this`waiters, lists
      ensures Listed() && waiters == Drop(old(waiters), k) && n !in waiters
    {
      Dropped(k);
      lists.Remove(n, list, waiters, k);
      waiters := Drop(waiters, k);
    }

    /** rt_event_recv up to its return or its suspension; `got` is what an immediate receiver is told. */
    method Recv(t: Tid, want: Bits, mode: Mode, wait: bool) returns (r: Err, got: Bits)
      requires Linked() && Told(View()) && t != list
      requires Enabled(View(), Op.Recv(t, want, mode, wait))
      modifies this, lists
      ensures Linked() && View() == Next(old(View()), Op.Recv(t, want, mode, wait))
      ensures Answer(r, got) == Result(old(View()), Op.Recv(t, want, mode, wait))
      ensures var now := want != 0 && Satisfied(want, mode, old(bits));
              && r == (if want == 0 then ERROR else if now then EOK else if wait then Blocked else ETIMEOUT)
              && (now ==> got == Mask(old(bits), want))
    {
      hide Ring, Satisfied, Mask, Consume, Describe, Kept, Informed, Waiting, Served;
      got := 0;
      if want == 0 {
        return ERROR, got;
      }
      NotWaiting(t);
      error := error[t := EOK];
      if Satisfied(want, mode, bits) {
        got := Mask(bits, want);
        SetThread(t, got, mode);
        bits := Consume(bits, want, mode.clear);
        return EOK, got;
      }
      if !wait {
        error := error[t := ETIMEOUT];
        return ETIMEOUT, got;
      }
      SuspendThread(t, want, mode);
      return Blocked, got;
    }

    /** Puts the thread on the wait list with what it waits for. */
    method SuspendThread(t: Tid, want: Bits, mode: Mode)
      requires Linked() && t != list && t !in waiters && t !in Served(woken)
      modifies this`wants, this`modes, this`waiters, this`order, lists
      ensures Linked()
      ensures var o := old(View()).order;
              && order.(flag := flag, prio := prio) == Draw(o, t)
              && Describe(waiters, wants, modes) == Line(o, old(View()).waiters, Waiter(t, want, mode))
    {
      hide Ring, Describe, Kept, Served;
      DescribeWaiting(waiters, wants, modes);
      SetThread(t, want, mode);
      ghost var k, ts := Slot(flag, waiters, prio, t), waiters;
      lists.SuspendOn(list, t, flag, prio, waiters);
      waiters := Suspend(flag, waiters, prio, t);
      KeptMore(woken, ts, wants, t, waiters);
      DescribeInsert(ts, k, t, wants, modes);
      order := Draw(View().order, t);
    }

    /** rt_event_recv after the thread was resumed: it returns the thread's error and, when that is RT_EOK, the bits
        in its event_set, which are those the send that served it told it. */
    method Return(t: Tid) returns (r: Err, got: Bits)
      requires Linked() && Told(View()) && Enabled(View(), Op.Return(t))
      modifies this`woken, this`ready
      ensures Linked() && View() == Next(old(View()), Op.Return(t))
      ensures r == ErrorOf(error, t) && (r == EOK <==> t in Served(old(woken)))
      ensures r == EOK ==> exists i :: 0 <= i < |old(woken)| && old(woken)[i].tid == t && old(woken)[i].got == got
    {
      hide Ring, Describe;
      ReturnsOkExactly(View(), t);
      r, got := ErrorOf(error, t), 0;
      if r == EOK {
        ghost var i :| 0 <= i < |woken| && Served(woken)[i] == t;
        assert woken[i].tid == t && KeptAt(woken[i], waiters, wants);
        got := wants[t];
      }
      KeptReturns(woken, waiters, wants, t);
      woken := DropDelivery(woken, t);
      ready := ready - {t};
    }

    lemma NotWaiting(t: Tid)
      requires Told(View()) && t !in Waiting(View().waiters) && t !in ready
      ensures t !in waiters && t !in Served(woken)
    {
      DescribeWaiting(waiters, wants, modes);
    }

    /** Fills in event_set and event_info of a thread that does not wait here. */
    method SetThread(t: Tid, want: Bits, mode: Mode)
      requires Linked() && t !in waiters && t !in Served(woken)
      modifies this`wants, this`modes
      ensures Linked() && wants == old(wants)[t := want] && modes == old(modes)[t := mode]
      ensures Describe(waiters, wants, modes) == old(Describe(waiters, wants, modes))
    {
      forall i | 0 <= i < |woken| ensures woken[i].tid != t {
        assert Served(woken)[i] == woken[i].tid;
      }
      wants := wants[t := want];
      modes := modes[t := mode];
      forall i | 0 <= i < |waiters|
        ensures Describe1(waiters[i], wants, modes) == old(Describe1(waiters[i], wants, modes))
      {
        assert waiters[i] in waiters;
      }
    }

    /** rt_event_control(RT_IPC_CMD_RESET). */
    method Reset()
      requires Linked()
      modifies this, lists
      ensures Linked() && View() == Next(old(View()), Op.Reset) && bits == 0 && waiters == []
    {
      DescribeWaiting(waiters, wants, modes);
      KeptFewer(woken, waiters, wants, []);
      error := lists.ResumeAll(list, error, waiters);
      ready := ready + SetOf(waiters);
      waiters := [];
      bits := 0;
    }

    /** rt_thread_timeout on the thread on place `k`. */
    method Expire(t: Tid, ghost k: nat)
      requires Linked() && k < |waiters| && waiters[k] == t
      modifies this, lists
      ensures Linked() && Enabled(old(View()), Op.Expire(t)) && View() == Next(old(View()), Op.Expire(t))
    {
      ghost var ts := waiters;
      DescribeWaiting(waiters, wants, modes);
      Distinctly();
      DescribeDrop(ts, k, wants, modes);
      Dropped(k);
      KeptFewer(woken, waiters, wants, Drop(waiters, k));
      error := error[t := ETIMEOUT];
      Resume(t, k);
      ready := ready + {t};
    }

    /** rt_thread_control(RT_THREAD_CTRL_CHANGE_PRIORITY). */
    method SetPriority(t: Tid, p: int)
      requires Linked()
      modifies this`prio
      ensures Linked() && View() == Next(old(View()), Op.SetPriority(t, p))
    {
      prio := prio[t := p];
    }

    lemma Distinctly()
      requires Listed()
      ensures Distinct(waiters)
    {
    }

    lemma Dropped(k: nat)
      requires k < |waiters| && Distinct(waiters)
      ensures waiters[k] !in Drop(waiters, k) && forall t :: t in Drop(waiters, k) ==> t in waiters
    {
      DropIsWithout(waiters, k);
      WithoutDistinct(waiters, waiters[k]);
    }
  }

  /** The thread of a delivery does not wait, and its event_set holds the delivered bits. */
  ghost predicate KeptAt(d: Delivery, waiters: seq<Tid>, wants: map<Tid, Bits>) {
    d.tid !in waiters && d.tid in wants && wants[d.tid] == d.got
  }

  ghost predicate Kept(ds: seq<Delivery>, waiters: seq<Tid>, wants: map<Tid, Bits>) {
    forall i :: 0 <= i < |ds| ==> KeptAt(ds[i], waiters, wants)
  }

  lemma KeptFewer(ds: seq<Delivery>, waiters: seq<Tid>, wants: map<Tid, Bits>, fewer: seq<Tid>)
    requires Kept(ds, waiters, wants) && forall t :: t in fewer ==> t in waiters
    ensures Kept(ds, fewer, wants)
  {
    forall i | 0 <= i < |ds| ensures KeptAt(ds[i], fewer, wants) {
      assert KeptAt(ds[i], waiters, wants);
    }
  }

  lemma KeptMore(ds: seq<Delivery>, waiters: seq<Tid>, wants: map<Tid, Bits>, t: Tid, more: seq<Tid>)
    requires Kept(ds, waiters, wants) && t !in Served(ds) && forall u :: u in more ==> u in waiters || u == t
    ensures Kept(ds, more, wants)
  {
    forall i | 0 <= i < |ds| ensures KeptAt(ds[i], more, wants) {
      assert KeptAt(ds[i], waiters, wants) && Served(ds)[i] == ds[i].tid;
    }
  }

  lemma KeptGrows(ds: seq<Delivery>, waiters: seq<Tid>, wants: map<Tid, Bits>, d: Delivery, fewer: seq<Tid>)
    requires Kept(ds, waiters, wants) && d.tid in waiters && d.tid !in fewer
    requires forall t :: t in fewer ==> t in waiters
    ensures Kept(ds + [d], fewer, wants[d.tid := d.got])
  {
    var all := ds + [d];
    forall i | 0 <= i < |all| ensures KeptAt(all[i], fewer, wants[d.tid := d.got]) {
      assert i < |ds| ==> KeptAt(ds[i], waiters, wants);
    }
  }

  lemma {:induction false} KeptReturns(ds: seq<Delivery>, waiters: seq<Tid>, wants: map<Tid, Bits>, t: Tid)
    requires Kept(ds, waiters, wants)
    ensures Kept(DropDelivery(ds, t), waiters, wants)
  {
    if ds != [] {
      var rest := ds[1..];
      forall i | 0 <= i < |rest| ensures KeptAt(rest[i], waiters, wants) {
        assert rest[i] == ds[i + 1];
      }
      KeptReturns(rest, waiters, wants, t);
      if ds[0].tid != t {
        var r := [ds[0]] + DropDelivery(rest, t);
        forall i | 0 <= i < |r| ensures KeptAt(r[i], waiters, wants) {
          assert i > 0 ==> r[i] == DropDelivery(rest, t)[i - 1];
          assert i == 0 ==> KeptAt(ds[0], waiters, wants);
        }
      }
    }
  }

  lemma DescribeWaiting(ts: seq<Tid>, wants: map<Tid, Bits>, modes: map<Tid, Mode>)
    ensures Waiting(Describe(ts, wants, modes)) == ts
  {
  }

  /** How far a walk has come: `kept` was passed over, `todo` is ahead. */
  ghost predicate Progress(goal: Walked, was: seq<Delivery>, kept: seq<Waiter>, todo: seq<Waiter>, bits: Bits,
                           woken: seq<Delivery>) {
    var r := Walk(todo, bits);
    goal.bits == r.bits && goal.rest == kept + r.rest && was + goal.served == woken + r.served
  }

  lemma ProgressStarts(goal: Walked, was: seq<Delivery>, todo: seq<Waiter>, bits: Bits)
    requires goal == Walk(todo, bits)
    ensures Progress(goal, was, [], todo, bits, was)
  {
  }

  lemma ProgressServes(goal: Walked, was: seq<Delivery>, kept: seq<Waiter>, todo: seq<Waiter>, bits: Bits,
                       woken: seq<Delivery>)
    requires Progress(goal, was, kept, todo, bits, woken) && todo != [] && (todo[0].mode.all || todo[0].mode.any)
    requires Satisfied(todo[0].want, todo[0].mode, bits)
    ensures var w := todo[0]; var got := Got(w.want, w.mode, bits);
            Progress(goal, was, kept, todo[1..], Consume(bits, got, w.mode.clear),
              woken + [Delivery(w.tid, got, w.mode.clear)])
  {
    hide Satisfied, Got, Consume;
  }

  lemma ProgressSkips(goal: Walked, was: seq<Delivery>, kept: seq<Waiter>, todo: seq<Waiter>, bits: Bits,
                      woken: seq<Delivery>)
    requires Progress(goal, was, kept, todo, bits, woken) && todo != [] && (todo[0].mode.all || todo[0].mode.any)
    requires !Satisfied(todo[0].want, todo[0].mode, bits)
    ensures Progress(goal, was, kept + [todo[0]], todo[1..], bits, woken)
  {
    hide Satisfied, Got, Consume;
  }

  lemma SkipNext(goal: Walked, was: seq<Delivery>, kept: seq<Tid>, todo: seq<Tid>, wants: map<Tid, Bits>,
                 modes: map<Tid, Mode>,
                 bits: Bits, woken: seq<Delivery>)
    requires todo != [] && Progress(goal, was, Describe(kept, wants, modes), Describe(todo, wants, modes), bits, woken)
    requires var w := Describe1(todo[0], wants, modes); (w.mode.all || w.mode.any) && !Satisfied(w.want, w.mode, bits)
    ensures Progress(goal, was, Describe(kept + [todo[0]], wants, modes), Describe(todo[1..], wants, modes), bits,
      woken)
    ensures kept + todo == (kept + [todo[0]]) + todo[1..]
  {
    hide Satisfied, Progress;
    ProgressSkips(goal, was, Describe(kept, wants, modes), Describe(todo, wants, modes), bits, woken);
    DescribeCons(todo, wants, modes);
    DescribeJoin(kept, [todo[0]], wants, modes);
    assert Describe([todo[0]], wants, modes) == [Describe1(todo[0], wants, modes)];
  }

  lemma ProgressStops(goal: Walked, was: seq<Delivery>, kept: seq<Waiter>, todo: seq<Waiter>, bits: Bits,
                      woken: seq<Delivery>)
    requires Progress(goal, was, kept, todo, bits, woken) && todo != [] && !todo[0].mode.all && !todo[0].mode.any
    ensures goal.bits == bits && goal.rest == kept + todo && was + goal.served == woken
  {
  }

  lemma ProgressEnds(goal: Walked, was: seq<Delivery>, kept: seq<Waiter>, bits: Bits, woken: seq<Delivery>)
    requires Progress(goal, was, kept, [], bits, woken)
    ensures goal.bits == bits && goal.rest == kept && was + goal.served == woken
  {
  }

  lemma DescribeCons(ts: seq<Tid>, wants: map<Tid, Bits>, modes: map<Tid, Mode>)
    requires ts != []
    ensures Describe(ts, wants, modes)[1..] == Describe(ts[1..], wants, modes)
  {
  }

  lemma FlaggedCons(ts: seq<Tid>, wants: map<Tid, Bits>, modes: map<Tid, Mode>)
    requires ts != []
    ensures Flagged(Describe(ts, wants, modes)) ==> Flagged(Describe(ts[1..], wants, modes))
    ensures Flagged(Describe(ts, wants, modes)) ==> ts[0] in modes && (modes[ts[0]].all || modes[ts[0]].any)
  {
    var ws := Describe(ts, wants, modes);
    DescribeCons(ts, wants, modes);
    assert forall i :: 0 <= i < |ws| - 1 ==> ws[1..][i] == ws[i + 1];
    assert ws[0] == Describe1(ts[0], wants, modes);
  }

  lemma DescribeJoin(a: seq<Tid>, b: seq<Tid>, wants: map<Tid, Bits>, modes: map<Tid, Mode>)
    ensures Describe(a + b, wants, modes) == Describe(a, wants, modes) + Describe(b, wants, modes)
  {
  }

  lemma DescribeInsert(ts: seq<Tid>, k: nat, t: Tid, wants: map<Tid, Bits>, modes: map<Tid, Mode>)
    requires k <= |ts|
    ensures var ws := Describe(ts, wants, modes);
            Describe(InsertAt(ts, k, t), wants, modes) == ws[..k] + [Describe1(t, wants, modes)] + ws[k..]
  {
  }

  lemma {:induction false} DescribeDrop(ts: seq<Tid>, k: nat, wants: map<Tid, Bits>, modes: map<Tid, Mode>)
    requires k < |ts| && Distinct(ts)
    ensures DropThread(Describe(ts, wants, modes), ts[k]) == Describe(Drop(ts, k), wants, modes)
  {
    DescribeCons(ts, wants, modes);
    if k > 0 {
      HeadTail(ts);
      assert ts[0] != ts[k] && ts[1..][k - 1] == ts[k];
      DescribeDrop(ts[1..], k - 1, wants, modes);
      assert Drop(ts, k) == [ts[0]] + Drop(ts[1..], k - 1);
      DescribeJoin([ts[0]], Drop(ts[1..], k - 1), wants, modes);
    } else {
      assert Drop(ts, 0) == ts[1..];
    }
  }

  lemma DescribeFrame(ts: seq<Tid>, wants: map<Tid, Bits>, wants': map<Tid, Bits>, modes: map<Tid, Mode>, n: Tid)
    requires n !in ts
    requires forall t :: t != n ==> (t in wants' <==> t in wants) && (t in wants' ==> wants'[t] == wants[t])
    ensures Describe(ts, wants', modes) == Describe(ts, wants, modes)
  {
    forall i | 0 <= i < |ts| ensures Describe1(ts[i], wants', modes) == Describe1(ts[i], wants, modes) {
      assert ts[i] in ts;
    }
  }
}
