/** ConfigureEndpoints of kernel/usb/xhci/xhci.cpp: the input context's add flags and endpoint
    contexts, and the rings they point to (context.hpp, Device::AllocTransferRing, Ring::Initialize). */
module EndpointSetup {
  import opened Options
  import opened Trbs
  import R = ProducerRing
  import A = Allocator
  import D = Descriptors
  import L = UsbLifetime
  import M = ArrayMaps
  import S = UsbService
  import U = UsbDevice
  import X = Transfers

  const ENDPOINTS := 31
  const RING_SIZE := 32
  const RING_BYTES := 16 * RING_SIZE

  /** Bytes of a `Ring` object. */
  const RING_OBJECT := 32

  // ---- flag words

  predicate Bit(x: nat, d: nat) { if d == 0 then x % 2 == 1 else Bit(x / 2, d - 1) }

  /** Bitwise or. */
  function Or(x: nat, y: nat): nat
    decreases x + y
  {
    if x == 0 then y else if y == 0 then x
    else 2 * Or(x / 2, y / 2) + (if x % 2 == 1 || y % 2 == 1 then 1 else 0)
  }

  lemma {:induction false} ZeroBits(d: nat)
    ensures !Bit(0, d)
  {
    if d > 0 {
      ZeroBits(d - 1);
    }
  }

  lemma {:induction false} OrBits(x: nat, y: nat, d: nat)
    ensures Bit(Or(x, y), d) <==> Bit(x, d) || Bit(y, d)
    decreases d
  {
    OrStep(x, y);
    hide Or;
    if d > 0 {
      OrBits(x / 2, y / 2, d - 1);
    }
  }

  lemma OrStep(x: nat, y: nat)
    ensures Or(x, y) / 2 == Or(x / 2, y / 2)
    ensures Or(x, y) % 2 == 1 <==> x % 2 == 1 || y % 2 == 1
  {
  }

  lemma {:induction false} PowerBits(d: nat, e: nat)
    ensures Bit(A.Pow2(d), e) <==> d == e
    decreases e
  {
    if d == 0 {
      if e > 0 {
        ZeroBits(e - 1);
      }
    } else if e > 0 {
      PowerBits(d - 1, e - 1);
    }
  }

  /** `flags |= 1u << d` sets bit d and keeps the others. */
  lemma SetBit(flags: nat, d: nat, e: nat)
    ensures Bit(Or(flags, A.Pow2(d)), e) <==> e == d || Bit(flags, e)
  {
    OrBits(flags, A.Pow2(d), e);
    PowerBits(d, e);
  }

  // ---- endpoint contexts

  /** The fields ConfigureEndpoints writes; `dequeue` is the TR Dequeue Pointer field, whose lowest bit
      is the cycle state. */
  datatype EpContext = EpContext(
    ty: nat, maxPacketSize: nat, interval: nat, averageTrbLength: nat, dequeue: nat,
    maxPrimaryStreams: nat, mult: nat, errorCount: nat)

  function SetTransferRingBuffer(c: EpContext, buffer: nat): EpContext {
    c.(dequeue := c.dequeue % 16 + buffer / 16 * 16)
  }

  function SetCycleState(c: EpContext): EpContext { c.(dequeue := c.dequeue - c.dequeue % 2 + 1) }

  /** What the controller reads: the ring's address and its first cycle state. */
  function TransferRingBuffer(c: EpContext): nat { c.dequeue / 16 * 16 }

  predicate CycleState(c: EpContext) { c.dequeue % 2 == 1 }

  /** A 16-byte aligned address survives the shift by four, and the cycle state does not touch it. */
  lemma PointerIsLossless(c: EpContext, buffer: nat)
    requires buffer % 16 == 0
    ensures var s := SetCycleState(SetTransferRingBuffer(c, buffer));
      TransferRingBuffer(s) == buffer && CycleState(s)
  {
    LowBits(c.dequeue % 16, buffer / 16);
    var d := c.dequeue % 16 + 16 * (buffer / 16);
    LowBits(d % 16 - d % 2 + 1, buffer / 16);
  }

  /** Four low bits below a multiple of sixteen, and their parity. */
  lemma LowBits(r: nat, k: nat)
    requires r < 16
    ensures (r + 16 * k) / 16 * 16 == 16 * k && (r + 16 * k) % 16 == r && (r + 16 * k) % 2 == r % 2
  {
    Parity(r, 8 * k);
  }

  lemma Parity(r: nat, k: nat)
    ensures (r + 2 * k) % 2 == r % 2
  {
  }

  /** The DeviceContextIndex of an endpoint is its address. */
  function Dci(c: D.EndpointConfig): nat { 2 * c.number + (if c.dirIn then 1 else 0) }

  function EpType(c: D.EndpointConfig): nat {
    if c.transferType == 0 then 4 else c.transferType + (if c.dirIn then 4 else 0)
  }

  function MostSignificantBit(v: nat): int { if v == 0 then -1 else 1 + MostSignificantBit(v / 2) }

  /** The interval field has eight bits. */
  function EightBits(v: int): nat { v % 0x100 }

  function Interval(c: D.EndpointConfig, speed: nat): nat {
    if speed == 1 || speed == 2 then
      if c.transferType == 1 then EightBits(c.interval + 2) else EightBits(MostSignificantBit(c.interval) + 3)
    else EightBits(c.interval - 1)
  }

  /** The context is set up for this endpoint. */
  predicate SetUpFor(x: EpContext, c: D.EndpointConfig, speed: nat) {
    && x.ty == EpType(c) && x.maxPacketSize == c.maxPacketSize && x.interval == Interval(c, speed)
    && x.averageTrbLength == 1 && x.maxPrimaryStreams == 0 && x.mult == 0 && x.errorCount == 3
  }

  // ---- an endpoint's context from its descriptor

  /** Endpoint types by transfer type and direction: control 4 both ways; isochronous 1 out and 5 in, bulk 2 and 6,
      interrupt 3 and 7. */
  predicate TypeFrom(ty: nat, d: seq<D.byte>)
    requires D.IsEndpoint(d)
  {
    && (d[3] % 4 == 0 ==> ty == 4)
    && (d[3] % 4 == 1 ==> ty == if d[2] < 128 then 1 else 5)
    && (d[3] % 4 == 2 ==> ty == if d[2] < 128 then 2 else 6)
    && (d[3] % 4 == 3 ==> ty == if d[2] < 128 then 3 else 7)
  }

  /** The controller polls every 2^interval times 125 microseconds. At full and low speed, that is the longest such
      time within the descriptor's number of milliseconds; from high speed on, the descriptor holds the exponent
      plus one, in eight bits. */
  predicate IntervalFrom(interval: nat, v: nat, isochronous: bool, speed: nat) {
    if speed != 1 && speed != 2 then interval == if v == 0 then 255 else v - 1
    else if isochronous then interval == if v < 254 then v + 2 else v - 254
    else if v == 0 then interval == 2
    else interval >= 3 && A.Pow2(interval - 3) <= v < A.Pow2(interval - 2)
  }

  /** The fields of a context that is set up, from the bytes of the endpoint's descriptor; it is the context, and
      the add flag, of twice the endpoint number, plus one for IN. */
  lemma ContextFromDescriptor(x: EpContext, c: D.EndpointConfig, d: seq<D.byte>, speed: nat)
    requires D.ReadFrom(c, d) && SetUpFor(x, c, speed)
    ensures TypeFrom(x.ty, d) && IntervalFrom(x.interval, d[6], d[3] % 4 == 1, speed)
    ensures x.maxPacketSize == (d[4] as nat) + 256 * (d[5] as nat) && x.errorCount == 3 && x.averageTrbLength == 1
    ensures Dci(c) == 2 * (d[2] % 16) + d[2] / 128
  {
    TypeOfContext(c, d);
    IntervalOfContext(c, speed);
    hide EpType, Interval, TypeFrom, IntervalFrom;
  }

  lemma TypeOfContext(c: D.EndpointConfig, d: seq<D.byte>)
    requires D.ReadFrom(c, d)
    ensures TypeFrom(EpType(c), d)
  {
  }

  lemma IntervalOfContext(c: D.EndpointConfig, speed: nat)
    requires c.interval < 0x100
    ensures IntervalFrom(Interval(c, speed), c.interval, c.transferType == 1, speed)
  {
    PeriodBits(c.interval);
    Wrapped(c.interval + 2);
    Wrapped(c.interval - 1);
    hide A.Pow2, MostSignificantBit, EightBits;
  }

  lemma Wrapped(v: int)
    requires -1 <= v < 0x200
    ensures EightBits(v) == if v == -1 then 255 else if v < 0x100 then v else v - 0x100
  {
  }

  /** The exponent of a number of milliseconds; a frame of one millisecond is 2^3 times 125 microseconds. */
  lemma PeriodBits(v: nat)
    requires v < 0x100
    ensures var i := EightBits(MostSignificantBit(v) + 3);
      if v == 0 then i == 2 else i >= 3 && A.Pow2(i - 3) <= v < A.Pow2(i - 2)
  {
    if v > 0 {
      Pow2Of8();
      HighestBit(v, 8);
      Wrapped(MostSignificantBit(v) + 3);
      hide *;
    }
  }

  lemma Pow2Of8()
    ensures A.Pow2(8) == 0x100
  {
    assert A.Pow2(4) == 16;
  }

  lemma {:induction false} HighestBit(v: nat, n: nat)
    requires 0 < v
    ensures var b := MostSignificantBit(v); b >= 0 && A.Pow2(b) <= v < A.Pow2(b + 1)
    ensures v < A.Pow2(n) ==> MostSignificantBit(v) < n
  {
    if v > 1 {
      HighestBit(v / 2, if n == 0 then 0 else n - 1);
    }
  }

  // ---- what the loop achieves

  /** The context points, with cycle state 1, to the fresh ring of the endpoint: 32 TRBs of 16 bytes, which lie
      between these addresses and in one block of 64 KiB. */
  predicate Started(x: EpContext, ring: Option<R.Producer>, low: nat, high: nat) {
    var base := TransferRingBuffer(x);
    && base % 64 == 0 && base < A.WORD && low <= base && base + 512 <= high
    && base / 0x1_0000 == (base + 511) / 0x1_0000 && CycleState(x) && ring == Some(R.InitProducer(base, 32))
  }

  predicate Usable(c: D.EndpointConfig) { 1 <= Dci(c) <= ENDPOINTS && c.transferType < 4 }

  /** Add flag d is set exactly for d = 0 and for the endpoints. */
  ghost predicate FlagsFor(flags: nat, cs: seq<D.EndpointConfig>) {
    forall d: nat :: Bit(flags, d) <==> d == 0 || exists j | 0 <= j < |cs| :: Dci(cs[j]) == d
  }

  ghost predicate AllStarted(cs: seq<D.EndpointConfig>, ctxs: seq<EpContext>, rings: seq<Option<R.Producer>>,
                             low: nat, high: nat)
    requires |ctxs| == |rings| == ENDPOINTS
  {
    forall j | 0 <= j < |cs| :: Usable(cs[j]) && Started(ctxs[Dci(cs[j]) - 1], rings[Dci(cs[j]) - 1], low, high)
  }

  /** Rings of different endpoints do not overlap. */
  ghost predicate RingsApart(cs: seq<D.EndpointConfig>, ctxs: seq<EpContext>)
    requires |ctxs| == ENDPOINTS
  {
    forall j, k | 0 <= j < |cs| && 0 <= k < |cs| && Usable(cs[j]) && Usable(cs[k]) && Dci(cs[j]) != Dci(cs[k]) ::
      var a, b := TransferRingBuffer(ctxs[Dci(cs[j]) - 1]), TransferRingBuffer(ctxs[Dci(cs[k]) - 1]);
      a + RING_BYTES <= b || b + RING_BYTES <= a
  }

  /** Of endpoints with the same index the last one counts. */
  ghost predicate LastWins(cs: seq<D.EndpointConfig>, ctxs: seq<EpContext>, speed: nat)
    requires |ctxs| == ENDPOINTS
  {
    forall j | 0 <= j < |cs| && Usable(cs[j]) && (forall k | j < k < |cs| :: Dci(cs[k]) != Dci(cs[j])) ::
      SetUpFor(ctxs[Dci(cs[j]) - 1], cs[j], speed)
  }

  ghost predicate Configured(cs: seq<D.EndpointConfig>, speed: nat, flags: nat, ctxs: seq<EpContext>,
                             rings: seq<Option<R.Producer>>, low: nat, high: nat) {
    && |ctxs| == |rings| == ENDPOINTS && FlagsFor(flags, cs)
    && AllStarted(cs, ctxs, rings, low, high) && RingsApart(cs, ctxs) && LastWins(cs, ctxs, speed)
  }

  /** One more endpoint, with a ring above all those before. */
  lemma OneMoreEndpoint(cs: seq<D.EndpointConfig>, speed: nat, flags: nat, ctxs: seq<EpContext>,
                        rings: seq<Option<R.Producer>>, low: nat, high: nat,
                        c: D.EndpointConfig, x: EpContext, ring: Option<R.Producer>, high': nat)
    requires Configured(cs, speed, flags, ctxs, rings, low, high) && Usable(c) && low <= high
    requires Started(x, ring, high, high') && SetUpFor(x, c, speed)
    ensures Configured(cs + [c], speed, Or(flags, A.Pow2(Dci(c))), ctxs[Dci(c) - 1 := x],
                       rings[Dci(c) - 1 := ring], low, high')
  {
    var ds, ctxs', rings' := cs + [c], ctxs[Dci(c) - 1 := x], rings[Dci(c) - 1 := ring];
    FlagsOneMore(flags, cs, c);
    hide FlagsFor, R.InitProducer, SetUpFor;
    assert AllStarted(ds, ctxs', rings', low, high');
    LastWinsOneMore(cs, ctxs, speed, c, x);
    hide LastWins;
    ApartOneMore(cs, ctxs, rings, low, high, c, x, ring, high');
  }

  lemma FlagsOneMore(flags: nat, cs: seq<D.EndpointConfig>, c: D.EndpointConfig)
    requires FlagsFor(flags, cs)
    ensures FlagsFor(Or(flags, A.Pow2(Dci(c))), cs + [c])
  {
    hide Bit, Or, Dci;
    var ds := cs + [c];
    forall d: nat ensures Bit(Or(flags, A.Pow2(Dci(c))), d) <==> d == 0 || exists j | 0 <= j < |ds| :: Dci(ds[j]) == d {
      SetBit(flags, Dci(c), d);
      assert ds[|cs|] == c;
      if j :| 0 <= j < |cs| && Dci(cs[j]) == d {
        assert Dci(ds[j]) == d;
      }
    }
  }

  lemma LastWinsOneMore(cs: seq<D.EndpointConfig>, ctxs: seq<EpContext>, speed: nat, c: D.EndpointConfig, x: EpContext)
    requires |ctxs| == ENDPOINTS && Usable(c)
    requires LastWins(cs, ctxs, speed) && SetUpFor(x, c, speed)
    ensures LastWins(cs + [c], ctxs[Dci(c) - 1 := x], speed)
  {
    hide SetUpFor;
    var ds := cs + [c];
    forall j | 0 <= j < |ds| && Usable(ds[j]) && (forall k | j < k < |ds| :: Dci(ds[k]) != Dci(ds[j]))
      ensures SetUpFor(ctxs[Dci(c) - 1 := x][Dci(ds[j]) - 1], ds[j], speed)
    {
      if j < |cs| {
        assert Dci(ds[|cs|]) != Dci(ds[j]);
        forall k | j < k < |cs| ensures Dci(cs[k]) != Dci(cs[j]) {
          assert Dci(ds[k]) != Dci(ds[j]);
        }
      }
    }
  }

  lemma ApartOneMore(cs: seq<D.EndpointConfig>, ctxs: seq<EpContext>, rings: seq<Option<R.Producer>>,
                    low: nat, high: nat,
                     c: D.EndpointConfig, x: EpContext, ring: Option<R.Producer>, high': nat)
    requires |ctxs| == |rings| == ENDPOINTS && AllStarted(cs, ctxs, rings, low, high) && RingsApart(cs, ctxs)
    requires Usable(c) && Started(x, ring, high, high')
    ensures RingsApart(cs + [c], ctxs[Dci(c) - 1 := x])
  {
    hide R.InitProducer, TransferRingBuffer, CycleState;
    var ds := cs + [c];
    forall j | 0 <= j < |cs| ensures TransferRingBuffer(ctxs[Dci(cs[j]) - 1]) + RING_BYTES <= TransferRingBuffer(x) {
      assert Started(ctxs[Dci(cs[j]) - 1], rings[Dci(cs[j]) - 1], low, high);
    }
  }

  /** The fields that describe an endpoint. */
  method Describe(x: EpContext, c: D.EndpointConfig, speed: nat) returns (ctx: EpContext)
    requires c.transferType < 4
    ensures ctx.ty == EpType(c) && ctx.maxPacketSize == c.maxPacketSize && ctx.interval == Interval(c, speed)
    ensures ctx.averageTrbLength == 1 && ctx.dequeue == x.dequeue
  {
    ctx := x;
    match c.transferType {
      case 0 => ctx := ctx.(ty := 4);
      case 1 => ctx := ctx.(ty := if c.dirIn then 5 else 1);
      case 2 => ctx := ctx.(ty := if c.dirIn then 6 else 2);
      case _ => ctx := ctx.(ty := if c.dirIn then 7 else 3);
    }
    ctx := ctx.(maxPacketSize := c.maxPacketSize, interval := Interval(c, speed), averageTrbLength := 1);
  }

  /** The rest: where the ring is, and the cycle state it starts with. */
  function Point(x: EpContext, buffer: nat): EpContext {
    SetCycleState(SetTransferRingBuffer(x, buffer)).(maxPrimaryStreams := 0, mult := 0, errorCount := 3)
  }

  lemma PointFacts(x: EpContext, buffer: nat, c: D.EndpointConfig, speed: nat)
    requires buffer % 64 == 0 && x.averageTrbLength == 1
    requires x.ty == EpType(c) && x.maxPacketSize == c.maxPacketSize && x.interval == Interval(c, speed)
    ensures SetUpFor(Point(x, buffer), c, speed)
    ensures TransferRingBuffer(Point(x, buffer)) == buffer && CycleState(Point(x, buffer))
  {
    PointerIsLossless(x, buffer);
    hide EpType, Interval;
  }

  /** Memory for a `Ring` object, then for its TRBs. */
  const RING_CALL := A.Call(RING_OBJECT, 64, 0x1000)
  const TRB_CALL := A.Call(RING_BYTES, 64, 0x1_0000)

  lemma CallsAreOk(base: nat)
    requires A.Placed(base)
    ensures A.Callable(base, RING_CALL) && A.Callable(base, TRB_CALL)
  {
    assert A.IsPowerOfTwo(64) && A.IsPowerOfTwo(0x1000) && A.IsPowerOfTwo(0x100);
    assert A.IsPowerOfTwo(0x1_0000);
    hide A.IsPowerOfTwo, A.Top;
  }

  /** A block for a ring is 64-byte aligned and lies above all earlier ones. */
  lemma FreshBlock(base: nat, ptr: nat, c: A.Call)
    requires A.Placed(base) && base <= ptr <= A.Top(base) && A.Callable(base, c) && c.alignment == 64
    ensures A.Bump(ptr, c.size, c.alignment, c.boundary) + c.size < A.WORD
    ensures var (next, p) := A.Alloc(base, ptr, c.size, c.alignment, c.boundary);
      && ptr <= next
      && (p.Some? ==>
            && ptr <= p.value && p.value + c.size == next && p.value % 64 == 0 && p.value < A.WORD
            && (c.boundary > 0 && c.size <= c.boundary ==> !A.Crosses(p.value, c.size, c.boundary)))
  {
    A.AllocFacts(base, ptr, c.size, c.alignment, c.boundary);
    A.BumpBelowTop(base, ptr, c.size, c.alignment, c.boundary);
    A.TopFacts(base);
    hide A.Alloc, A.Bump, A.Top, A.Crosses, A.PowerOrZero;
  }

  /** DetermineMaxPacketSizeForControlPipe. */
  function ControlPacketSize(speed: nat): nat {
    if speed == 4 then 512 else if speed == 3 then 64 else 8
  }

  function InitializeEp0Context(x: EpContext, speed: nat, buffer: nat): EpContext {
    SetCycleState(SetTransferRingBuffer(x.(ty := 4, maxPacketSize := ControlPacketSize(speed)), buffer))
    .(interval := 0, maxPrimaryStreams := 0, mult := 0, errorCount := 3)
  }

  lemma ControlContextFacts(x: EpContext, speed: nat, buffer: nat)
    requires buffer % 64 == 0
    ensures var c := InitializeEp0Context(x, speed, buffer);
      && TransferRingBuffer(c) == buffer && CycleState(c)
      && c.ty == 4 && c.maxPacketSize == ControlPacketSize(speed) && c.errorCount == 3 && c.interval == 0
  {
    PointerIsLossless(x.(ty := 4, maxPacketSize := ControlPacketSize(speed)), buffer);
  }

  lemma ControlPipeFlags()
    ensures forall d: nat :: Bit(Or(Or(0, 1), A.Pow2(1)), d) <==> d == 0 || d == 1
  {
    assert A.Pow2(0) == 1;
    forall d: nat ensures Bit(Or(Or(0, 1), A.Pow2(1)), d) <==> d == 0 || d == 1 {
      SetBit(Or(0, 1), 1, d);
      PowerBits(0, d);
    }
  }

  datatype Outcome = Done | UnknownSpeed | OutOfMemory

  /** The input context's endpoint part, the device's transfer rings, and the allocator. */
  class Endpoints {
    var addFlags: nat
    const contexts: array<EpContext>
    const rings: array<Option<R.Producer>>
    const pool: A.Pool

    ghost predicate Valid()
      reads this, pool
    {
      contexts.Length == rings.Length == ENDPOINTS && pool.Valid()
    }

    constructor (pool: A.Pool)
      requires pool.Valid()
      ensures Valid() && fresh(contexts) && fresh(rings) && this.pool == pool
    {
      addFlags := 0;
      contexts := new EpContext[ENDPOINTS](_ => EpContext(0, 0, 0, 0, 0, 0, 0, 0));
      rings := new Option<R.Producer>[ENDPOINTS](_ => None);
      this.pool := pool;
    }

    /** AllocTransferRing: the new ring's buffer, if there is memory for it. The source hands on a null
        pointer otherwise. */
    method AllocTransferRing(dci: nat) returns (buffer: Option<nat>)
      requires Valid() && 1 <= dci <= ENDPOINTS
      modifies rings, pool
      ensures Valid() && old(pool.allocPtr) <= pool.allocPtr
      ensures buffer.Some? ==>
                && old(pool.allocPtr) + 32 <= buffer.value && buffer.value + RING_BYTES <= pool.allocPtr
                && buffer.value % 64 == 0 && buffer.value < A.WORD
                && buffer.value / 0x1_0000 == (buffer.value + 511) / 0x1_0000
                && rings[..] == old(rings[..])[dci - 1 := Some(R.InitProducer(buffer.value, RING_SIZE))]
    {
      CallsAreOk(pool.base);
      FreshBlock(pool.base, pool.allocPtr, RING_CALL);
      var ring := pool.AllocMem(RING_OBJECT, 64, 0x1000);
      if ring.None? {
        return None;
      }
      FreshBlock(pool.base, pool.allocPtr, TRB_CALL);
      buffer := pool.AllocMem(RING_BYTES, 64, 0x1_0000);
      if buffer.Some? {
        rings[dci - 1] := Some(R.InitProducer(buffer.value, RING_SIZE));
      }
    }

    /** The body of the loop over the endpoints. */
    method SetUp(c: D.EndpointConfig, speed: nat) returns (ok: bool)
      requires Valid() && Usable(c)
      modifies this`addFlags, contexts, rings, pool
      ensures Valid() && old(pool.allocPtr) <= pool.allocPtr
      ensures ok ==>
                && addFlags == Or(old(addFlags), A.Pow2(Dci(c)))
                && contexts[..] == old(contexts[..])[Dci(c) - 1 := contexts[Dci(c) - 1]]
                && rings[..] == old(rings[..])[Dci(c) - 1 := rings[Dci(c) - 1]]
                && Started(contexts[Dci(c) - 1], rings[Dci(c) - 1], old(pool.allocPtr), pool.allocPtr)
                && SetUpFor(contexts[Dci(c) - 1], c, speed)
    {
      hide Or, SetUpFor, R.InitProducer;
      var dci := Dci(c);
      addFlags := Or(addFlags, A.Pow2(dci));
      var ctx := Describe(contexts[dci - 1], c, speed);
      var tr := AllocTransferRing(dci);
      if tr.None? {
        return false;
      }
      contexts[dci - 1] := Point(ctx, tr.value);
      PointFacts(ctx, tr.value, c, speed);
      return true;
    }

    /** The endpoint part of AddressDevice, with InitializeEP0Context: the slot context and EP0 are
        enabled, and EP0's context starts the controller where its fresh ring starts. */
    method SetUpControlPipe(speed: nat) returns (ok: bool)
      requires Valid()
      modifies this`addFlags, contexts, rings, pool
      ensures Valid() && old(pool.allocPtr) <= pool.allocPtr
      ensures forall d: nat :: Bit(addFlags, d) <==> d == 0 || d == 1
      ensures ok ==>
                && Started(contexts[0], rings[0], old(pool.allocPtr), pool.allocPtr)
                && contexts[0].ty == 4 && contexts[0].errorCount == 3 && contexts[0].interval == 0
                && (speed == 3 ==> contexts[0].maxPacketSize == 64)
                && (speed == 4 ==> contexts[0].maxPacketSize == 512)
                && (speed != 3 && speed != 4 ==> contexts[0].maxPacketSize == 8)
    {
      ControlPipeFlags();
      hide Bit, Or, R.InitProducer, A.Pow2;
      addFlags := Or(Or(0, 1), A.Pow2(1));
      var tr := AllocTransferRing(1);
      if tr.None? {
        return false;
      }
      ControlContextFacts(contexts[0], speed, tr.value);
      hide InitializeEp0Context, TransferRingBuffer, CycleState;
      contexts[0] := InitializeEp0Context(contexts[0], speed, tr.value);
      return true;
    }

    /** Main theorem: the add flags are those of the slot context and the endpoints, and every
        endpoint's context starts the controller where its fresh ring starts: the state the ring
        protocol begins in. Surviving rings do not overlap each other or any block handed out before. */
    method ConfigureEndpoints(configs: seq<D.EndpointConfig>, speed: nat) returns (outcome: Outcome)
      requires Valid() && forall j | 0 <= j < |configs| :: Usable(configs[j])
      modifies this`addFlags, contexts, rings, pool
      ensures Valid() && (outcome == UnknownSpeed <==> speed == 0 || speed > 5)
      ensures outcome == Done ==>
                Configured(configs, speed, addFlags, contexts[..], rings[..], old(pool.allocPtr), pool.allocPtr)
    {
      hide Configured, Started, SetUpFor, Or, R.InitProducer;
      addFlags := 0;
      addFlags := Or(addFlags, 1);
      if speed == 0 || speed > 5 {
        return UnknownSpeed;
      }
      NoEndpoints(speed, contexts[..], rings[..], pool.allocPtr);
      for i := 0 to |configs|
        invariant Valid() && old(pool.allocPtr) <= pool.allocPtr
        invariant Configured(configs[..i], speed, addFlags, contexts[..], rings[..], old(pool.allocPtr), pool.allocPtr)
      {
        ghost var flags, ctxs, rs, high := addFlags, contexts[..], rings[..], pool.allocPtr;
        var ok := SetUp(configs[i], speed);
        if !ok {
          return OutOfMemory;
        }
        var dci := Dci(configs[i]);
        OneMoreEndpoint(configs[..i], speed, flags, ctxs, rs, old(pool.allocPtr), high, configs[i],
                        contexts[dci - 1], rings[dci - 1], pool.allocPtr);
        assert configs[..i] + [configs[i]] == configs[..i + 1];
      }
      assert configs[..|configs|] == configs;
      return Done;
    }
  }

  lemma NoEndpoints(speed: nat, ctxs: seq<EpContext>, rings: seq<Option<R.Producer>>, ptr: nat)
    requires |ctxs| == |rings| == ENDPOINTS
    ensures Configured([], speed, Or(0, 1), ctxs, rings, ptr, ptr)
  {
    forall d: nat ensures Bit(Or(0, 1), d) <==> d == 0 {
      assert A.Pow2(0) == 1;
      PowerBits(0, d);
    }
  }

  // ---- the command ring register

  /** CRCR: ring cycle state, stop, abort, three bits left alone, and a 58-bit pointer field. */
  datatype Crcr = Crcr(cycleState: bool, stop: bool, abort: bool, low: nat, field: nat) {
    function Pointer(): nat { field * 64 }
    function SetPointer(value: nat): Crcr { this.(field := value / 64) }

    /** The register as one number. */
    function Value(): nat {
      (if cycleState then 1 else 0) + (if stop then 2 else 0) + (if abort then 4 else 0) + 8 * low + 64 * field
    }
  }

  /** RegisterCommandRing. */
  function RegisterCommandRing(crcr: Crcr, buffer: nat): Crcr {
    crcr.(cycleState := true, stop := false, abort := false).SetPointer(buffer)
  }

  /** The controller is told to start where a fresh command ring starts: at its base, which the shift by
      six leaves whole, with the cycle state of its first TRB. */
  lemma CommandRingStarts(crcr: Crcr, base: nat)
    requires base % 64 == 0 && base < A.WORD
    ensures var c, s := RegisterCommandRing(crcr, base), R.Init(base, RING_SIZE);
      && c.Pointer() == s.p.base && s.c.index == s.p.writeIndex == 0
      && c.cycleState == s.p.cycleBit == s.c.cycleState && c.Value() == base + 8 * crcr.low + 1
  {
    assert base / 64 * 64 == base;
  }

  // ---- the rings of a device's life

  /** The rings that ConfigureEndpoints leaves are those with which a device's life goes on, for bases
      that meet its requirement. */
  lemma RingsAreTheDevices(cs: seq<D.EndpointConfig>, speed: nat, flags: nat, ctxs: seq<EpContext>,
                           rings: seq<Option<R.Producer>>, low: nat, high: nat, dev: X.Device)
      returns (bases: seq<addr>)
    requires Configured(cs, speed, flags, ctxs, rings, low, high)
    requires X.DeviceInv(dev) && dev.live == [] && M.InUse(dev.table) == 0 && L.NumbersOk(cs)
    ensures |bases| == ENDPOINTS + 1 && forall d | 0 <= d <= ENDPOINTS :: bases[d] % 64 == 0
    ensures forall j | 0 <= j < |cs| ::
              Usable(cs[j]) && X.RingAt(U.AllocRings(dev, cs, bases).rings, Dci(cs[j])) == rings[Dci(cs[j]) - 1]
  {
    bases := seq(ENDPOINTS + 1, d requires 0 <= d <= ENDPOINTS => BaseOf(ctxs, d));
    hide X.DeviceInv, M.InUse, R.InitProducer;
    S.AllocFacts(dev, cs, bases);
    forall j | 0 <= j < |cs|
      ensures Usable(cs[j]) && X.RingAt(U.AllocRings(dev, cs, bases).rings, Dci(cs[j])) == rings[Dci(cs[j]) - 1]
    {
      assert Started(ctxs[Dci(cs[j]) - 1], rings[Dci(cs[j]) - 1], low, high);
      assert U.Address(cs[j]) == Dci(cs[j]);
      assert bases[Dci(cs[j])] == BaseOf(ctxs, Dci(cs[j]));
    }
  }

  /** The base of an endpoint's ring, if it is a 64-byte aligned address. */
  function BaseOf(ctxs: seq<EpContext>, d: nat): (r: addr)
    requires |ctxs| == ENDPOINTS && d <= ENDPOINTS
    ensures r % 64 == 0
  {
    if d > 0 && TransferRingBuffer(ctxs[d - 1]) < A.WORD && TransferRingBuffer(ctxs[d - 1]) % 64 == 0
    then TransferRingBuffer(ctxs[d - 1]) else 0
  }
}
