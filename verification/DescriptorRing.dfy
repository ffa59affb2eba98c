/**
 The DMA descriptor rings of drivers/net/synopGMAC_Dev.c (normal descriptors, ring mode). The transmit and the
 receive ring follow the same protocol; they differ in the control bits set with a buffer (`flags`).
 */
module DescriptorSteps {

  type Word = bv32

  const OWN: Word := 0x8000_0000           // DescOwnByDma
  const END_OF_RING: Word := 0x0200_0000   // TxDescEndOfRing, RxDescEndOfRing
  const CHAIN: Word := 0x0100_0000         // TxDescChain, RxDescChain
  const SIZE1: Word := 0x0000_07FF         // DescSize1Mask
  const SIZE2: Word := 0x003F_F800         // DescSize2Mask
  const TX_FLAGS: Word := 0xE000_0000      // DescTxFirst | DescTxLast | DescTxIntEnable
  const RX_FLAGS: Word := 0                // MODULO_INTERRUPT is 1: no completion interrupt is suppressed

  datatype Desc = Desc(status: Word, length: Word, buffer1: nat, buffer2: nat, data1: nat, data2: nat)

  /** What the driver hands to a ring: a DMA address, the buffer's own address, and its length. */
  datatype Packet = Packet(buffer: nat, data: nat, size: Word)

  // the bit fields of the status and length words

  predicate OwnBit(status: Word) { status & OWN == OWN }

  predicate NoSizes(length: Word) { length & SIZE1 == 0 && length & SIZE2 == 0 }

  predicate ChainBit(length: Word) { length & CHAIN == CHAIN }

  predicate EndBit(length: Word) { length & END_OF_RING == END_OF_RING }

  function Size1(length: Word): Word { length & SIZE1 }

  function WithSize(length: Word, size: Word, flags: Word): Word { length | (size & SIZE1) | flags }

  function ClearOwn(status: Word): Word { status & !OWN }

  predicate IsOwned(d: Desc) { OwnBit(d.status) }

  predicate IsEmpty(d: Desc) { NoSizes(d.length) }

  predicate IsChained(d: Desc) { ChainBit(d.length) }

  /** synopGMAC_is_last_*_desc; `base` is the address of the ring's first descriptor. */
  predicate IsLast(d: Desc, base: nat) { EndBit(d.length) || d.data2 == base }

  /** synopGMAC_*_desc_init_ring. */
  function InitRing(last: bool): Desc {
    Desc(0, if last then END_OF_RING else 0, 0, 0, 0, 0)
  }

  /** A descriptor filled by synopGMAC_set_*_qptr and handed to the DMA; the second buffer is not used. */
  function Load(d: Desc, p: Packet, flags: Word): Desc {
    Desc(OWN, WithSize(d.length, p.size, flags), p.buffer, 0, p.data, 0)
  }

  /** The DMA closing a descriptor: it writes a status without the own bit. */
  function Close(d: Desc, status: Word): Desc {
    d.(status := ClearOwn(status))
  }

  function Unload(d: Desc): Packet {
    Packet(d.buffer1, d.data1, Size1(d.length))
  }

  // ----- The control bits

  predicate Flags(flags: Word) { flags == TX_FLAGS || flags == RX_FLAGS }

  lemma InitFacts(last: bool, base: nat)
    requires base != 0
    ensures IsEmpty(InitRing(last)) && !IsOwned(InitRing(last)) && !IsChained(InitRing(last))
    ensures IsLast(InitRing(last), base) <==> last
  {
  }

  lemma SizeOfLoaded(l: Word, s: Word, flags: Word)
    requires Flags(flags)
    ensures Size1(WithSize(l, s, flags)) == Size1(l) | Size1(s)
  {
    if flags == TX_FLAGS {
      assert (l | (s & 0x7FF) | 0xE000_0000) & 0x7FF == (l & 0x7FF) | (s & 0x7FF);
    } else {
      assert (l | (s & 0x7FF) | 0) & 0x7FF == (l & 0x7FF) | (s & 0x7FF);
    }
  }

  lemma SecondSizeOfLoaded(l: Word, s: Word, flags: Word)
    requires Flags(flags)
    ensures WithSize(l, s, flags) & SIZE2 == l & SIZE2
  {
    if flags == TX_FLAGS {
      assert (l | (s & 0x7FF) | 0xE000_0000) & 0x3F_F800 == l & 0x3F_F800;
    } else {
      assert (l | (s & 0x7FF) | 0) & 0x3F_F800 == l & 0x3F_F800;
    }
  }

  lemma PlaceOfLoaded(l: Word, s: Word, flags: Word)
    requires Flags(flags)
    ensures EndBit(WithSize(l, s, flags)) == EndBit(l)
  {
    if flags == TX_FLAGS {
      assert (l | (s & 0x7FF) | 0xE000_0000) & 0x0200_0000 == l & 0x0200_0000;
    } else {
      assert (l | (s & 0x7FF) | 0) & 0x0200_0000 == l & 0x0200_0000;
    }
  }

  lemma ChainOfLoaded(l: Word, s: Word, flags: Word)
    requires Flags(flags)
    ensures ChainBit(WithSize(l, s, flags)) == ChainBit(l)
  {
    if flags == TX_FLAGS {
      assert (l | (s & 0x7FF) | 0xE000_0000) & 0x0100_0000 == l & 0x0100_0000;
    } else {
      assert (l | (s & 0x7FF) | 0) & 0x0100_0000 == l & 0x0100_0000;
    }
  }

  /** A loaded descriptor counts as empty just if the low eleven bits of the length are zero. */
  lemma LoadEmptyExactly(d: Desc, p: Packet, flags: Word)
    requires IsEmpty(d) && Flags(flags)
    ensures IsEmpty(Load(d, p, flags)) <==> Size1(p.size) == 0
  {
    SizeOfLoaded(d.length, p.size, flags);
    SecondSizeOfLoaded(d.length, p.size, flags);
    assert (0 as Word) | Size1(p.size) == Size1(p.size);
  }

  lemma UnloadLoaded(d: Desc, p: Packet, flags: Word)
    requires IsEmpty(d) && Flags(flags) && Size1(p.size) == p.size
    ensures Unload(Load(d, p, flags)) == p
  {
    SizeOfLoaded(d.length, p.size, flags);
    assert (0 as Word) | Size1(p.size) == Size1(p.size);
  }

  lemma UnloadExactly(d: Desc)
    ensures Unload(d) == Packet(d.buffer1, d.data1, d.length & 0x7FF)
  {
  }

  /** Loading sets the own bit, keeps the place in the ring, and gives the packet back when unloaded. */
  lemma LoadFacts(d: Desc, p: Packet, flags: Word, base: nat)
    requires IsEmpty(d) && Flags(flags) && base != 0 && d.data2 != base && Size1(p.size) == p.size != 0
    ensures var e := Load(d, p, flags);
            && IsOwned(e) && !IsEmpty(e) && (IsChained(e) <==> IsChained(d)) && (IsLast(e, base) <==> IsLast(d, base))
            && Unload(e) == p && e.buffer1 == p.buffer && e.data1 == p.data && e.buffer2 == e.data2 == 0
            && Size1(e.length) == p.size && e.length & flags == flags
  {
    hide NoSizes, ChainBit, EndBit, Size1, WithSize, Flags;
    FlagsOfLoaded(d.length, p.size, flags);
    LoadEmptyExactly(d, p, flags);
    UnloadLoaded(d, p, flags);
    PlaceOfLoaded(d.length, p.size, flags);
    ChainOfLoaded(d.length, p.size, flags);
  }

  lemma FlagsOfLoaded(l: Word, s: Word, flags: Word)
    ensures WithSize(l, s, flags) & flags == flags
  {
    KeepsLast(l | (s & SIZE1), flags);
  }

  lemma KeepsLast(a: Word, b: Word)
    ensures (a | b) & b == b
  {
  }

  /** A transmit descriptor is the first and the last of its frame and raises an interrupt; a receive descriptor is
      none of these. */
  lemma FlagsExactly()
    ensures TX_FLAGS == 0x8000_0000 | 0x4000_0000 | 0x2000_0000 && RX_FLAGS == 0
  {
  }

  lemma CloseFacts(status: Word)
    ensures !OwnBit(ClearOwn(status))
  {
    assert (status & !(0x8000_0000 as Word)) & 0x8000_0000 == 0;
  }

  /** A length of 2048 has the low eleven bits clear: the set succeeds, and the descriptor still counts as empty. */
  lemma Length2048LooksEmpty(p: Packet)
    requires p.size == 2048
    ensures IsEmpty(Load(InitRing(false), p, TX_FLAGS)) && IsOwned(Load(InitRing(false), p, TX_FLAGS))
  {
    assert (2048 as Word) & 0x7FF == 0;
    InitFacts(false, 1);
    LoadEmptyExactly(InitRing(false), p, TX_FLAGS);
  }

  // ----- The ring

  /** `next` and `busy` are the indices TxNext/RxNext and TxBusy/RxBusy, `nextDesc` and `busyDesc` the places the
      matching descriptor pointers point to, `count` is BusyTxDesc/BusyRxDesc. */
  datatype State = State(
    base: nat,
    flags: Word,
    descs: seq<Desc>,
    next: nat,
    nextDesc: nat,
    busy: nat,
    busyDesc: nat,
    count: int,
    submitted: seq<Packet>,
    returned: seq<Packet>)

  datatype Op =
    | SetQptr(p: Packet)
    | GetQptr
    | DmaClose(i: nat, status: Word)

  /** Packets have between 1 and 2047 bytes. */
  predicate Enabled(op: Op) {
    op.SetQptr? ==> Size1(op.p.size) == op.p.size != 0
  }

  /** synopGMAC_set_tx_qptr and synopGMAC_set_rx_qptr. */
  function SetStep(s: State, p: Packet): State {
    if s.nextDesc >= |s.descs| || !IsEmpty(s.descs[s.nextDesc]) then s
    else
      var d := Load(s.descs[s.nextDesc], p, s.flags);
      s.(count := s.count + 1, descs := s.descs[s.nextDesc := d], submitted := s.submitted + [p],
         next := if IsLast(d, s.base) then 0 else s.next + 1,
         nextDesc := if IsLast(d, s.base) then 0 else s.nextDesc + 1)
  }

  /** synopGMAC_get_tx_qptr and synopGMAC_get_rx_qptr. */
  function GetStep(s: State): State {
    if s.busyDesc >= |s.descs| || IsOwned(s.descs[s.busyDesc]) || IsEmpty(s.descs[s.busyDesc]) then s
    else
      var d := s.descs[s.busyDesc];
      var last := IsLast(d, s.base);
      s.(count := s.count - 1, descs := s.descs[s.busyDesc := InitRing(last)], returned := s.returned + [Unload(d)],
         busy := if last then 0 else s.busy + 1,
         busyDesc := if last then 0 else s.busyDesc + 1)
  }

  /** The DMA may close any descriptor it owns. */
  function DmaStep(s: State, i: nat, status: Word): State {
    if i < |s.descs| && IsOwned(s.descs[i]) then s.(descs := s.descs[i := Close(s.descs[i], status)]) else s
  }

  function Next(s: State, op: Op): State {
    match op
    case SetQptr(p) => SetStep(s, p)
    case GetQptr => GetStep(s)
    case DmaClose(i, status) => DmaStep(s, i, status)
  }

  // ----- What every reachable state satisfies

  /** `k` places behind `from` on a ring of `n`. */
  function Place(from: nat, k: nat, n: nat): nat {
    if from + k < n then from + k else if from + k >= 2 * n then 0 else from + k - n
  }

  function Count(s: State): nat { if s.count < 0 then 0 else s.count }

  /** The indices describe a window of the ring, and the pointers agree with them. */
  ghost predicate InStep(s: State) {
    && 0 < |s.descs| && s.base != 0 && Flags(s.flags) && 0 <= s.count <= |s.descs| && s.busy < |s.descs|
    && s.next == Place(s.busy, Count(s), |s.descs|) && s.nextDesc == s.next && s.busyDesc == s.busy
  }

  /** Every descriptor knows its place in the ring. */
  ghost predicate Placed(s: State) {
    forall i :: 0 <= i < |s.descs| ==>
      !IsChained(s.descs[i]) && s.descs[i].data2 != s.base && (IsLast(s.descs[i], s.base) <==> i == |s.descs| - 1)
  }

  /** A descriptor outside the window is empty and the driver's. */
  predicate Vacant(d: Desc) { IsEmpty(d) && !IsOwned(d) }

  /** Exactly the window is in use. */
  ghost predicate Windowed(s: State) {
    forall k :: 0 <= k < |s.descs| ==>
      var i := Place(s.busy, k, |s.descs|);
      i < |s.descs| && (k < s.count ==> !IsEmpty(s.descs[i])) && (k >= s.count ==> Vacant(s.descs[i]))
  }

  /** The packets in the window, oldest first. */
  function Window(s: State): (w: seq<Packet>)
    requires 0 <= s.count <= |s.descs| && s.busy < |s.descs|
    ensures |w| == s.count
    ensures forall k :: 0 <= k < s.count ==> w[k] == Unload(s.descs[Place(s.busy, k, |s.descs|)])
  {
    seq(s.count, k requires 0 <= k < s.count => Unload(s.descs[Place(s.busy, k, |s.descs|)]))
  }

  ghost predicate Inv(s: State) {
    InStep(s) && Placed(s) && Windowed(s) && s.submitted == s.returned + Window(s)
  }

  /** A set is refused just when the ring is full, whoever owns its descriptors. */
  lemma SetRefusedExactly(s: State, p: Packet)
    requires Inv(s)
    ensures s.nextDesc < |s.descs| && (IsEmpty(s.descs[s.nextDesc]) <==> s.count < |s.descs|)
    ensures SetStep(s, p).submitted == (if s.count < |s.descs| then s.submitted + [p] else s.submitted)
  {
    hide IsEmpty, IsOwned, IsLast, IsChained, Load;
    var n := |s.descs|;
    if s.count < n {
      assert s.next == Place(s.busy, Count(s), n);
    } else {
      assert s.next == s.busy == Place(s.busy, 0, n);
    }
  }

  lemma SetInv(s: State, p: Packet)
    requires Inv(s) && Size1(p.size) == p.size != 0
    ensures Inv(SetStep(s, p))
  {
    hide IsEmpty, IsOwned, IsLast, IsChained, Load, Unload, Flags, Size1;
    SetRefusedExactly(s, p);
    var n, s' := |s.descs|, SetStep(s, p);
    if s.count < n {
      var i := s.nextDesc;
      LoadFacts(s.descs[i], p, s.flags, s.base);
      LoadedData2(s.descs[i], p, s.flags);
      forall k | 0 <= k < n && k != s.count ensures Place(s.busy, k, n) != i {
        PlaceDiffers(s.busy, k, s.count, n);
      }
      assert Window(s') == Window(s) + [p];
    }
  }

  lemma PlaceDiffers(from: nat, j: nat, k: nat, n: nat)
    requires from < n && j < n && k < n && j != k
    ensures Place(from, j, n) != Place(from, k, n)
  {
  }

  lemma LoadedData2(d: Desc, p: Packet, flags: Word)
    ensures Load(d, p, flags).data2 == 0
  {
  }

  lemma PlaceShift(from: nat, k: nat, n: nat)
    requires from < n && k < n
    ensures Place(Place(from, 1, n), k, n) == if k + 1 < n then Place(from, k + 1, n) else from
    ensures k > 0 ==> Place(from, k, n) != from
  {
  }

  lemma GetInv(s: State)
    requires Inv(s)
    ensures Inv(GetStep(s))
  {
    hide IsEmpty, IsOwned, IsLast, IsChained, InitRing, Unload, Flags, Vacant, Windowed, Placed, Window;
    if IsOwned(s.descs[s.busy]) || IsEmpty(s.descs[s.busy]) { return; }
    BusyCounts(s);
    GetWindowed(s);
    GetPlaced(s);
  }

  lemma GetPlaced(s: State)
    requires InStep(s) && Placed(s)
    ensures Placed(GetStep(s))
  {
    hide IsEmpty, IsOwned, IsLast, IsChained, InitRing, Unload, Flags;
    InitFacts(IsLast(s.descs[s.busy], s.base), s.base);
    InitData2(IsLast(s.descs[s.busy], s.base));
  }

  lemma BusyCounts(s: State)
    requires Inv(s) && !IsEmpty(s.descs[s.busy])
    ensures s.count > 0
  {
    hide IsEmpty;
    assert Place(s.busy, 0, |s.descs|) == s.busy;
  }

  /** What the descriptor `k` places behind the new busy place is after a get. */
  lemma GetAt(s: State, k: nat)
    requires Inv(s) && !IsOwned(s.descs[s.busy]) && !IsEmpty(s.descs[s.busy]) && s.count > 0 && k < |s.descs|
    ensures var s', i := GetStep(s), Place(Place(s.busy, 1, |s.descs|), k, |s.descs|);
            && i < |s.descs| == |s'.descs|
            && (k < s.count - 1 ==> !IsEmpty(s'.descs[i]) && Unload(s'.descs[i]) == Window(s)[k + 1])
            && (k >= s.count - 1 ==> Vacant(s'.descs[i]))
  {
    hide IsEmpty, IsOwned, IsLast, InitRing, Unload, Flags, IsChained, Place, Placed;
    var n := |s.descs|;
    InitFacts(IsLast(s.descs[s.busy], s.base), s.base);
    PlaceShift(s.busy, k, n);
    if k + 1 < n { PlaceShift(s.busy, k + 1, n); }
  }

  lemma GetWindowed(s: State)
    requires Inv(s) && !IsOwned(s.descs[s.busy]) && !IsEmpty(s.descs[s.busy]) && s.count > 0
    ensures GetStep(s).busy == Place(s.busy, 1, |s.descs|) < |s.descs|
    ensures Windowed(GetStep(s)) && Window(s) == [Unload(s.descs[s.busy])] + Window(GetStep(s))
  {
    hide IsEmpty, IsOwned, InitRing, Unload, Flags, IsChained, IsLast;
    var n, s' := |s.descs|, GetStep(s);
    forall k | 0 <= k < n ensures
      var i := Place(s'.busy, k, n);
      && i < n
      && (k < s'.count ==> !IsEmpty(s'.descs[i]) && Unload(s'.descs[i]) == Window(s)[k + 1])
      && (k >= s'.count ==> Vacant(s'.descs[i]))
    {
      GetAt(s, k);
    }
    assert Place(s.busy, 0, n) == s.busy;
  }

  lemma InitData2(last: bool)
    ensures InitRing(last).data2 == 0
  {
  }

  lemma DmaInv(s: State, i: nat, status: Word)
    requires Inv(s)
    ensures Inv(DmaStep(s, i, status))
  {
    hide OwnBit, NoSizes, ChainBit, EndBit, Size1, ClearOwn, Flags;
    CloseFacts(status);
    var s' := DmaStep(s, i, status);
    assert Window(s') == Window(s);
  }

  lemma StepInv(s: State, op: Op)
    requires Inv(s) && Enabled(op)
    ensures Inv(Next(s, op))
  {
    match op
    case SetQptr(p) => SetInv(s, p);
    case GetQptr => GetInv(s);
    case DmaClose(i, status) => DmaInv(s, i, status);
  }

  // ----- Whole runs

  /** The ring as synopGMAC_setup_*_desc_queue leaves it. */
  ghost predicate Fresh(s: State) {
    && 0 < |s.descs| && s.base != 0 && Flags(s.flags)
    && (forall i :: 0 <= i < |s.descs| ==> s.descs[i] == InitRing(i == |s.descs| - 1))
    && s.next == s.nextDesc == s.busy == s.busyDesc == 0 && s.count == 0 && s.submitted == s.returned == []
  }

  lemma FreshInv(s: State)
    requires Fresh(s)
    ensures Inv(s)
  {
    hide IsEmpty, IsOwned, IsLast, IsChained, InitRing, Flags;
    forall i | 0 <= i < |s.descs| ensures Vacant(s.descs[i]) && !IsChained(s.descs[i]) && s.descs[i].data2 != s.base
      && (IsLast(s.descs[i], s.base) <==> i == |s.descs| - 1)
    {
      InitFacts(i == |s.descs| - 1, s.base);
      InitData2(i == |s.descs| - 1);
    }
  }

  function After(s: State, ops: seq<Op>): State
    decreases |ops|
  {
    if ops == [] then s else After(Next(s, ops[0]), ops[1..])
  }

  lemma {:induction false} AfterSnoc(s: State, ops: seq<Op>, op: Op)
    ensures After(s, ops + [op]) == Next(After(s, ops), op)
    decreases |ops|
  {
    if ops == [] {
      assert ops + [op] == [op] && [op][1..] == [];
    } else {
      assert (ops + [op])[1..] == ops[1..] + [op];
      AfterSnoc(Next(s, ops[0]), ops[1..], op);
    }
  }

  lemma ClosedTwice(status: Word)
    ensures ClearOwn(ClearOwn(status)) == ClearOwn(status)
  {
  }

  lemma {:induction false} RunFrom(s: State, ops: seq<Op>)
    requires Inv(s) && forall i :: 0 <= i < |ops| ==> Enabled(ops[i])
    ensures Inv(After(s, ops))
    decreases |ops|
  {
    if ops != [] {
      StepInv(s, ops[0]);
      RunFrom(Next(s, ops[0]), ops[1..]);
    }
  }

  /** In every run of driver and DMA the indices, pointers and busy count agree with the descriptors, and the
      packets come back once each, in the order of submission. */
  lemma EveryRunInStep(s: State, ops: seq<Op>)
    requires Fresh(s) && forall i :: 0 <= i < |ops| ==> Enabled(ops[i])
    ensures InStep(After(s, ops)) && Placed(After(s, ops)) && Windowed(After(s, ops))
    ensures After(s, ops).submitted == After(s, ops).returned + Window(After(s, ops))
    ensures Log(After(s, ops).submitted, After(s, ops).returned) == Written(s, ops, Log([], []))
  {
    FreshInv(s);
    RunFrom(s, ops);
    RunLogged(s, ops, Log([], []));
  }

  // ----- The packets by the calls and what they return

  datatype Log = Log(submitted: seq<Packet>, returned: seq<Packet>)

  /** The next descriptor is empty, so that a set succeeds. */
  predicate Accepts(s: State) {
    s.nextDesc < |s.descs| && IsEmpty(s.descs[s.nextDesc])
  }

  /** The busy descriptor was closed by the DMA, so that a get succeeds. */
  predicate Returns(s: State) {
    s.busyDesc < |s.descs| && !IsOwned(s.descs[s.busyDesc]) && !IsEmpty(s.descs[s.busyDesc])
  }

  function Write(s: State, op: Op, l: Log): Log {
    match op
    case SetQptr(p) => if Accepts(s) then l.(submitted := l.submitted + [p]) else l
    case GetQptr =>
      if !Returns(s) then l
      else
        var d := s.descs[s.busyDesc];
        l.(returned := l.returned + [Packet(d.buffer1, d.data1, d.length & 0x7FF)])
    case DmaClose(_, _) => l
  }

  function Written(s: State, ops: seq<Op>, l: Log): Log
    decreases |ops|
  {
    if ops == [] then l else Written(Next(s, ops[0]), ops[1..], Write(s, ops[0], l))
  }

  lemma StepLogged(s: State, op: Op)
    ensures Log(Next(s, op).submitted, Next(s, op).returned) == Write(s, op, Log(s.submitted, s.returned))
  {
    hide OwnBit, NoSizes, EndBit, WithSize, ClearOwn;
  }

  lemma {:induction false} RunLogged(s: State, ops: seq<Op>, l: Log)
    requires l == Log(s.submitted, s.returned)
    ensures Log(After(s, ops).submitted, After(s, ops).returned) == Written(s, ops, l)
    decreases |ops|
  {
    hide Next, Write;
    if ops != [] {
      StepLogged(s, ops[0]);
      RunLogged(Next(s, ops[0]), ops[1..], Write(s, ops[0], l));
    }
  }
}

/** A descriptor ring of the driver, with the functions of drivers/net/synopGMAC_Dev.c that work on it and the
    loops of drivers/net/synopGMAC.c. */
module DescriptorRing {
  import opened DescriptorSteps

  class Ring {
    const base: nat
    const flags: Word
    const descs: array<Desc>
    var next: nat
    var nextDesc: nat
    var busy: nat
    var busyDesc: nat
    var count: int
    var locked: bool               // sem_lock
    ghost var submitted: seq<Packet>
    ghost var returned: seq<Packet>

    ghost function View(): State
      reads this, descs
    {
      State(base, flags, descs[..], next, nextDesc, busy, busyDesc, count, submitted, returned)
    }

    /** synopGMAC_setup_tx_desc_queue and synopGMAC_setup_rx_desc_queue, in ring mode. */
    constructor (n: nat, address: nat, bits: Word)
      requires 0 < n && address != 0 && Flags(bits)
      ensures Fresh(View()) && descs.Length == n && base == address && flags == bits && !locked && fresh(descs)
    {
      base, flags := address, bits;
      descs := new Desc[n](_ => InitRing(false));
      next, nextDesc, busy, busyDesc, count, locked := 0, 0, 0, 0, 0, false;
      submitted, returned := [], [];
      new;
      hide Flags, InitRing;
      for i := 0 to n
        modifies descs
        invariant forall j :: 0 <= j < i ==> descs[j] == InitRing(j == n - 1)
      {
        descs[i] := InitRing(i == n - 1);
      }
    }

    /** synopGMAC_set_tx_qptr and synopGMAC_set_rx_qptr: the index used, or -1. */
    method SetQptr(p: Packet) returns (r: int)
      requires nextDesc < descs.Length
      modifies this, descs
      ensures View() == SetStep(old(View()), p) && locked == old(locked)
      ensures r == if IsEmpty(old(descs[nextDesc])) then old(next) else -1
      ensures Accepts(old(View())) <==> IsEmpty(old(descs[nextDesc]))
    {
      hide IsEmpty, IsLast, Load;
      var index, d := next, descs[nextDesc];
      if !IsEmpty(d) {
        return -1;
      }
      count := count + 1;
      descs[nextDesc] := Load(d, p, flags);
      d := descs[nextDesc];
      submitted := submitted + [p];
      next := if IsLast(d, base) then 0 else index + 1;
      nextDesc := if IsLast(d, base) then 0 else nextDesc + 1;
      return index;
    }

    /** synopGMAC_get_tx_qptr and synopGMAC_get_rx_qptr: the index closed and its packet, or -1. */
    method GetQptr() returns (r: int, p: Packet)
      requires busyDesc < descs.Length
      modifies this, descs
      ensures View() == GetStep(old(View())) && locked == old(locked)
      ensures var d := old(descs[busyDesc]);
              if IsOwned(d) || IsEmpty(d) then r == -1 else r == old(busy) && p == Unload(d)
    {
      hide IsEmpty, IsOwned, IsLast, InitRing, Unload;
      var index, d := busy, descs[busyDesc];
      p := Unload(d);
      if IsOwned(d) || IsEmpty(d) {
        return -1, p;
      }
      count := count - 1;
      returned := returned + [p];
      var last := IsLast(d, base);
      descs[busyDesc] := InitRing(last);
      busy := if last then 0 else index + 1;
      busyDesc := if last then 0 else busyDesc + 1;
      return index, p;
    }

    /** The DMA engine at work beside the driver: it may close any of the descriptors it owns, and does nothing
        else; `closed` lists the steps it took. */
    method DmaMayClose() returns (ghost closed: seq<Op>)
      requires Inv(View())
      modifies descs
      ensures Inv(View()) && (forall k :: 0 <= k < |closed| ==> closed[k].DmaClose?)
      ensures View() == After(old(View()), closed)
      ensures forall i :: 0 <= i < descs.Length ==>
        descs[i] == old(descs[i]) || (IsOwned(old(descs[i])) && Close(old(descs[i]), descs[i].status) == descs[i])
    {
      hide OwnBit, NoSizes, ChainBit, EndBit, Size1, ClearOwn, Flags, Inv;
      closed := [];
      for i := 0 to descs.Length
        invariant Inv(View()) && View() == After(old(View()), closed)
        invariant forall k :: 0 <= k < |closed| ==> closed[k].DmaClose?
        invariant forall j :: i <= j < descs.Length ==> descs[j] == old(descs[j])
        invariant forall j :: 0 <= j < i ==>
          descs[j] == old(descs[j]) || (IsOwned(old(descs[j])) && Close(old(descs[j]), descs[j].status) == descs[j])
      {
        var close: bool, status: Word := *, *;
        if close && IsOwned(descs[i]) {
          ghost var s := View();
          DmaInv(s, i, status);
          AfterSnoc(old(View()), closed, DmaClose(i, status));
          ClosedTwice(status);
          descs[i] := Close(descs[i], status);
          closed := closed + [DmaClose(i, status)];
          assert descs[..] == s.descs[i := Close(s.descs[i], status)];
        }
      }
    }

    /** The receive fill loop of eth_init; `buffers` are the allocations that succeed, in order. */
    method Fill(buffers: seq<Packet>)
      requires Fresh(View()) && forall i :: 0 <= i < |buffers| ==> Enabled(Op.SetQptr(buffers[i]))
      modifies this, descs
      ensures Inv(View()) && returned == []
      ensures count == (if |buffers| < descs.Length then |buffers| else descs.Length) && submitted == buffers[..count]
    {
      hide Inv, InitRing, Flags, Size1;
      FreshInv(View());
      var n := descs.Length;
      var k := 0;
      var status := 0;
      while true
        invariant Inv(View()) && 0 <= k <= |buffers| && k < n && count == k && busy == 0 && next == k
        invariant submitted == buffers[..k] && returned == []
        decreases n - k
      {
        if k == |buffers| {
          break;
        }
        status := FillOne(buffers[k]);
        k := k + 1;
        if !(status >= 0 && status < n - 1) {
          break;
        }
      }
    }

    /** One turn of the fill loop on a ring from which nothing has been taken. */
    method FillOne(p: Packet) returns (status: int)
      requires Inv(View()) && Enabled(Op.SetQptr(p)) && busy == 0 && 0 <= count < descs.Length
      modifies this, descs
      ensures Inv(View()) && busy == 0 && count == old(count) + 1 && status == old(count)
      ensures count < descs.Length ==> next == count
      ensures submitted == old(submitted) + [p] && returned == old(returned)
    {
      hide IsEmpty, IsOwned, IsLast, IsChained, Load, Unload, Flags, Size1, InitRing, Windowed, Placed, SetStep, Window;
      SetInv(View(), p);
      SetRefusedExactly(View(), p);
      SetWhere(View(), p);
      status := SetQptr(p);
    }

    /** rt_eth_rx: a received buffer is handed back to the ring at once, and is never refused. */
    method EthRx(size: Word) returns (r: int)
      requires Inv(View()) && Size1(size) == size != 0 && !locked
      requires !IsEmpty(descs[busyDesc]) ==> Unload(descs[busyDesc]).data != 0
      modifies this, descs
      ensures Inv(View()) && count == old(count) && !locked
      ensures var d := old(descs[busyDesc]); r >= 0 <==> !IsOwned(d) && !IsEmpty(d)
      ensures r >= 0 ==>
        var p := Unload(old(descs[busyDesc]));
        returned == old(returned) + [p] && submitted == old(submitted) + [p.(size := size)]
      ensures r < 0 ==> View() == old(View())
    {
      hide IsEmpty, IsOwned, IsLast, IsChained, Load, Unload, Flags, Size1, InitRing, Windowed, Placed, SetStep, Window;
      locked := true;
      GetInv(View());
      GetCounts(View());
      var index, p := GetQptr();
      if !(index >= 0 && p.data != 0) {
        locked := false;
        return -1;
      }
      var again := p.(size := size);
      SetInv(View(), again);
      SetRefusedExactly(View(), again);
      SetKeeps(View(), again);
      r := SetQptr(again);
      locked := false;
    }

    /** rt_eth_tx from taking the lock; `alloc` says whether the copy of the packet could be allocated. */
    method EthTx(p: Packet, alloc: bool) returns (r: int)
      requires Inv(View()) && Enabled(Op.SetQptr(p)) && !locked
      modifies this, descs
      ensures Inv(View())
      // the packet is queued, dropped because the DMA still owns the next descriptor, or refused with an error
      ensures var s := old(View()); var dma := IsOwned(s.descs[s.next]);
              && (r == 0 <==> dma || (alloc && s.count < |s.descs|))
              && (r == -16 <==> !dma && alloc && s.count == |s.descs|)
              && (r == -1 <==> !dma && !alloc)
              && submitted == (if r == 0 && !dma then s.submitted + [p] else s.submitted)
      ensures old(returned) <= returned
      // what the DMA has closed is reclaimed
      ensures r == 0 ==> IsOwned(descs[busyDesc]) || IsEmpty(descs[busyDesc])
      // the error returns leave the lock taken
      ensures locked <==> r != 0
    {
      hide IsEmpty, IsOwned, IsLast, IsChained, Load, Unload, Flags, Size1, Windowed, Placed, SetStep, Window;
      locked := true;
      SetRefusedExactly(View(), p);
      SetInv(View(), p);
      SetKeeps(View(), p);
      if !IsOwned(descs[nextDesc]) {
        if !alloc {
          return -1;
        }
        var status := SetQptr(p);
        if status < 0 {
          return -16;
        }
      }
      Reclaim();
      locked := false;
      return 0;
    }

    /** The reclaim loop: gets closed descriptors back until one is not ready, while the DMA goes on. */
    method Reclaim()
      requires Inv(View())
      modifies this, descs
      ensures Inv(View()) && submitted == old(submitted) && old(returned) <= returned && locked == old(locked)
      ensures IsOwned(descs[busyDesc]) || IsEmpty(descs[busyDesc])
    {
      hide IsEmpty, IsOwned, IsLast, IsChained, InitRing, Unload, Flags, Windowed, Placed, Window;
      var index := 0;
      while index >= 0
        invariant Inv(View()) && submitted == old(submitted) && old(returned) <= returned && locked == old(locked)
        invariant index < 0 ==> IsOwned(descs[busyDesc]) || IsEmpty(descs[busyDesc])
        decreases count, index
      {
        ghost var _ := DmaMayClose();
        GetInv(View());
        var p;
        index, p := GetQptr();
      }
    }
  }

  lemma SetWhere(s: State, p: Packet)
    requires Inv(s) && s.count < |s.descs| && s.busy == 0
    ensures s.next == s.count && SetStep(s, p).busy == 0 && SetStep(s, p).count == s.count + 1
      && SetStep(s, p).returned == s.returned
    ensures s.count + 1 < |s.descs| ==> SetStep(s, p).next == s.count + 1
  {
    SetRefusedExactly(s, p);
    PlaceOfLoaded(s.descs[s.next].length, p.size, s.flags);
  }

  lemma SetKeeps(s: State, p: Packet)
    ensures SetStep(s, p).returned == s.returned
    ensures SetStep(s, p).count == s.count + |SetStep(s, p).submitted| - |s.submitted|
  {
  }

  /** A get that succeeds leaves room in the ring. */
  lemma GetCounts(s: State)
    requires Inv(s)
    ensures GetStep(s).submitted == s.submitted && |GetStep(s).descs| == |s.descs|
    ensures GetStep(s).count == s.count - (|GetStep(s).returned| - |s.returned|)
  {
  }

  // ----- Two runs of rt_eth_tx

  lemma FreshFacts(s: State)
    requires Fresh(s)
    ensures Inv(s) && IsEmpty(s.descs[0]) && !IsOwned(s.descs[0])
  {
    FreshInv(s);
    InitFacts(|s.descs| == 1, s.base);
  }

  lemma SetOwns(s: State, p: Packet)
    requires Fresh(s) && Enabled(Op.SetQptr(p)) && |s.descs| == 1
    ensures SetStep(s, p).next == 0 && IsOwned(SetStep(s, p).descs[0]) && SetStep(s, p).submitted == [p]
  {
    hide IsOwned, IsEmpty, IsLast, InitRing, Load, Flags, Size1;
    FreshFacts(s);
    InitFacts(true, s.base);
    InitData2(true);
    LoadFacts(s.descs[0], p, s.flags, s.base);
  }

  /** A send for which no buffer can be allocated returns -1 and leaves the lock taken. */
  method FailedSendKeepsLock(p: Packet) returns (ring: Ring, r: int)
    requires Enabled(Op.SetQptr(p))
    ensures fresh(ring) && r == -1 && ring.locked
  {
    ring := new Ring(4, 4096, TX_FLAGS);
    FreshFacts(ring.View());
    r := ring.EthTx(p, false);
  }

  /** With the only descriptor still the DMA's a send returns 0, and its packet is neither queued nor reported. */
  method BusySendDropsPacket(p: Packet, q: Packet) returns (ring: Ring, r: int)
    requires Enabled(Op.SetQptr(p)) && Enabled(Op.SetQptr(q))
    ensures fresh(ring) && r == 0 && ring.submitted == [p]
  {
    ring := new Ring(1, 4096, TX_FLAGS);
    FreshFacts(ring.View());
    SetOwns(ring.View(), p);
    SetInv(ring.View(), p);
    var _ := ring.SetQptr(p);
    r := ring.EthTx(q, true);
  }
}
