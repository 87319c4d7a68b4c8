/** Control and interrupt transfers of kernel/usb/xhci/device.cpp: requests are encoded into TRBs on
    transfer rings, and decoded again when a transfer event points back at one of those TRBs. */
module Transfers {
  import opened Options
  import opened Trbs
  import opened ProducerRing
  import opened RingPush
  import opened ArrayMaps

  type byte = x: nat | x < 0x100
  type half = x: nat | x < 0x1_0000

  /** The eight bytes of a USB setup packet. */
  datatype SetupData = SetupData(requestType: byte, request: byte, value: half, index: half, length: half)

  // ---- TRB encodings; flags holds bits 1 to 9 of the last word

  const INTERRUPT_ON_SHORT_PACKET := 0x2
  const INTERRUPT_ON_COMPLETION := 0x10
  const IMMEDIATE_DATA := 0x20

  datatype Stage = NoData | OutData | InData

  /** kNoDataStage, kOutDataStage, kInDataStage. */
  function TransferType(s: Stage): nat { if s.NoData? then 0 else if s.OutData? then 2 else 3 }

  function MakeSetupStage(s: SetupData, stage: Stage): Trb {
    Trb(s.requestType + 0x100 * s.request + 0x1_0000 * s.value,
        s.index + 0x1_0000 * s.length, 8,
        Control(IMMEDIATE_DATA, SETUP_STAGE, TransferType(stage)), false)
  }

  /** trb_transfer_length has 17 bits; a C++ int is cut to them. */
  function Cut17(len: int): word { len % 0x2_0000 }

  function MakeDataStage(buf: addr, len: int, dirIn: bool): Trb {
    Trb(Low(buf), High(buf), Cut17(len),
        Control(INTERRUPT_ON_COMPLETION, DATA_STAGE, if dirIn then 1 else 0), false)
  }

  function MakeStatusStage(dirIn: bool, ioc: bool): Trb {
    Trb(0, 0, 0, Control(if ioc then INTERRUPT_ON_COMPLETION else 0, STATUS_STAGE, if dirIn then 1 else 0), false)
  }

  function MakeNormal(buf: addr, len: int): Trb {
    Trb(Low(buf), High(buf), Cut17(len),
        Control(INTERRUPT_ON_SHORT_PACKET + INTERRUPT_ON_COMPLETION, NORMAL, 0), false)
  }

  /** The setup packet as the completion handler reads it back, field by field. */
  function SetupOf(t: Trb): SetupData {
    SetupData(t.w0 % 0x100, t.w0 / 0x100 % 0x100, t.w0 / 0x1_0000, t.w1 % 0x1_0000, t.w1 / 0x1_0000)
  }

  function BufferOf(t: Trb): addr { t.w0 + 0x1_0000_0000 * t.w1 }

  function LengthOf(t: Trb): nat { t.w2 % 0x2_0000 }

  /** Decoding inverts encoding: the setup packet and the buffer pointer exactly, the length in its
      low 17 bits. */
  lemma EncodingFacts(s: SetupData, stage: Stage, buf: addr, len: int, dirIn: bool)
    ensures SetupOf(MakeSetupStage(s, stage)) == s
    ensures BufferOf(MakeDataStage(buf, len, dirIn)) == buf && BufferOf(MakeNormal(buf, len)) == buf
    ensures LengthOf(MakeDataStage(buf, len, dirIn)) == LengthOf(MakeNormal(buf, len)) == Cut17(len)
    ensures 0 <= len < 0x2_0000 ==> Cut17(len) == len
  {
    SetupReadsBack(s, stage);
    HalvesJoin(buf);
    hide SetupOf, MakeSetupStage, Low, High;
  }

  lemma SetupReadsBack(s: SetupData, stage: Stage)
    ensures SetupOf(MakeSetupStage(s, stage)) == s
  {
    FieldsOfWord(s.requestType, s.request, s.value);
    HalvesOfWord(s.index, s.length);
    hide *;
    UnpackSetup(s, stage);
  }

  lemma UnpackSetup(s: SetupData, stage: Stage)
    requires var w := s.requestType + 0x100 * s.request + 0x1_0000 * s.value;
      w % 0x100 == s.requestType && w / 0x100 % 0x100 == s.request && w / 0x1_0000 == s.value
    requires var w := s.index + 0x1_0000 * s.length;
      w % 0x1_0000 == s.index && w / 0x1_0000 == s.length
    ensures SetupOf(MakeSetupStage(s, stage)) == s
  {
  }

  lemma FieldsOfWord(a: byte, b: byte, c: half)
    ensures var w := a + 0x100 * b + 0x1_0000 * c;
      w % 0x100 == a && w / 0x100 % 0x100 == b && w / 0x1_0000 == c
  {
    assert (a + 0x100 * b + 0x1_0000 * c) / 0x100 == b + 0x100 * c;
  }

  lemma HalvesOfWord(a: half, b: half)
    ensures (a + 0x1_0000 * b) % 0x1_0000 == a && (a + 0x1_0000 * b) / 0x1_0000 == b
  {
  }

  lemma HalvesJoin(a: addr)
    ensures Low(a) + 0x1_0000_0000 * High(a) == a
  {
  }

  /** The fields of all TRBs that are pushed fit their widths. */
  lemma FieldsFit(s: SetupData, stage: Stage, buf: addr, len: int, dirIn: bool, ioc: bool)
    ensures MakeSetupStage(s, stage).ctl.Fits() && MakeDataStage(buf, len, dirIn).ctl.Fits()
    ensures MakeStatusStage(dirIn, ioc).ctl.Fits() && MakeNormal(buf, len).ctl.Fits()
  {
  }

  /** The last words of the four kinds of TRB as they lie in memory, each one number: the cycle bit,
      interrupt on short packet (bit 2), interrupt on completion (bit 5), immediate data (bit 6), the type
      in bits 10 to 15, and transfer type or direction from bit 16 on. */
  lemma TransferWords(p: Producer, s: SetupData, stage: Stage, buf: addr, len: int, dirIn: bool, ioc: bool)
    requires p.writeIndex < |p.mem|
    ensures MakeSetupStage(s, stage).ctl.Fits() && MakeDataStage(buf, len, dirIn).ctl.Fits()
    ensures MakeStatusStage(dirIn, ioc).ctl.Fits() && MakeNormal(buf, len).ctl.Fits()
    ensures var cycle, dir := if p.cycleBit then 1 else 0, if dirIn then 1 else 0;
      && WordStored(p, MakeSetupStage(s, stage)) == cycle + 0x40 + 0x800 +
         (if stage.NoData? then 0 else if stage.OutData? then 0x2_0000 else 0x3_0000)
      && WordStored(p, MakeDataStage(buf, len, dirIn)) == cycle + 0x20 + 0xC00 + 0x1_0000 * dir
      && WordStored(p, MakeStatusStage(dirIn, ioc)) == cycle + (if ioc then 0x20 else 0) + 0x1000 + 0x1_0000 * dir
      && WordStored(p, MakeNormal(buf, len)) == cycle + 0x4 + 0x20 + 0x400
  {
    FieldsFit(s, stage, buf, len, dirIn, ioc);
    LastWordStored(p, MakeSetupStage(s, stage));
    LastWordStored(p, MakeDataStage(buf, len, dirIn));
    LastWordStored(p, MakeStatusStage(dirIn, ioc));
    LastWordStored(p, MakeNormal(buf, len));
    hide StoreWord, WordStored, Cut17, Low, High;
  }

  // ---- device state

  const ENDPOINTS := 31

  /** A pointer to a TRB: the ring's device context index and the slot. Rings lie in disjoint memory
      blocks, so different pairs are different addresses. */
  datatype Ptr = Ptr(dci: nat, slot: nat)

  /** A request in flight: its ring, the index of the push that interrupts on completion, and what
      was asked for. A buf of 0 is a null pointer. */
  datatype Request =
    | ControlRequest(dci: nat, ioc: nat, setup: SetupData, buf: addr, len: int, dirIn: bool)
    | InterruptRequest(dci: nat, ioc: nat, buf: addr, len: int)

  /** transfer_rings_, setup_stage_map_, and the requests in flight. */
  datatype Device = Device(
    rings: seq<Option<Producer>>, table: seq<Entry<Ptr, Ptr>>, live: seq<Request>)

  datatype Error =
    | Success | InvalidEndpointNumber | TransferRingNotSet | TransferFailed
    | NoCorrespondingSetupStage | NotImplemented

  function RingAt(rings: seq<Option<Producer>>, dci: int): Option<Producer> {
    if 1 <= dci <= |rings| then rings[dci - 1] else None
  }

  function SetRing(d: Device, dci: nat, p: Producer): Device
    requires 1 <= dci <= |d.rings|
  {
    d.(rings := d.rings[dci - 1 := Some(p)])
  }

  predicate Pushable(p: Producer) { |p.mem| >= 3 && p.writeIndex < |p.mem| - 1 }

  /** The endpoint number of an endpoint address, `addr_ >> 1`. */
  function Number(ep: int): int { ep / 2 }

  function StageOf(buf: addr, dirIn: bool): Stage {
    if buf == 0 then NoData else if dirIn then InData else OutData
  }

  /** The TRB that interrupts: the Data Stage if there is a buffer, else the Status Stage. */
  function Interrupting(buf: addr, len: int, dirIn: bool): Trb {
    if buf == 0 then MakeStatusStage(true, true) else MakeDataStage(buf, len, dirIn)
  }

  /** The pushes of ControlIn (dirIn) and ControlOut: a Setup Stage, the TRB that interrupts on
      completion and, after a Data Stage, a Status Stage. */
  function PushControl(p: Producer, setup: SetupData, buf: addr, len: int, dirIn: bool): Producer
    requires Pushable(p)
  {
    var q := Push(Push(p, MakeSetupStage(setup, StageOf(buf, dirIn))), Interrupting(buf, len, dirIn));
    if buf == 0 then q else Push(q, MakeStatusStage(!dirIn, false))
  }

  /** The slot after this one: the Link TRB sends the ring back to slot 0. */
  function NextSlot(p: Producer, slot: nat): nat { if slot + 1 == |p.mem| - 1 then 0 else slot + 1 }

  /** ControlIn and ControlOut. */
  function ControlTransfer(d: Device, ep: int, setup: SetupData, buf: addr, len: int, dirIn: bool): (Device, Error)
    requires ep != 0 && (RingAt(d.rings, ep).Some? ==> Pushable(RingAt(d.rings, ep).value))
  {
    if Number(ep) < 0 || 15 < Number(ep) then (d, InvalidEndpointNumber)
    else if RingAt(d.rings, ep).None? then (d, TransferRingNotSet)
    else
      var p := RingAt(d.rings, ep).value;
      var d' := SetRing(d, ep, PushControl(p, setup, buf, len, dirIn));
      (d'.(table := Put(d.table, Ptr(ep, NextSlot(p, p.writeIndex)), Ptr(ep, p.writeIndex)),
           live := d.live + [ControlRequest(ep, |p.pushed| + 1, setup, buf, len, dirIn)]), Success)
  }

  function InterruptIn(d: Device, ep: nat, buf: addr, len: int): (Device, Error)
    requires 1 <= ep <= ENDPOINTS && (RingAt(d.rings, ep).Some? ==> Pushable(RingAt(d.rings, ep).value))
  {
    if RingAt(d.rings, ep).None? then (d, TransferRingNotSet)
    else
      var p := RingAt(d.rings, ep).value;
      (SetRing(d, ep, Push(p, MakeNormal(buf, len))).(
         live := d.live + [InterruptRequest(ep, |p.pushed|, buf, len)]), Success)
  }

  // ---- completions

  /** A transfer event: the TRB it points to, the residual length, the completion code. */
  datatype Event = Event(ptr: Ptr, residual: nat, code: nat)

  /** What the handler passes on to the USB layer. */
  datatype Completion =
    | Rejected(err: Error)
    | InterruptCompleted(buf: addr, len: int)
    | ControlCompleted(setup: SetupData, buf: addr, len: int)

  /** The TRB at a pointer, if it points into a ring. */
  function TrbAt(d: Device, ptr: Ptr): Option<Trb> {
    var r := RingAt(d.rings, ptr.dci);
    if r.Some? && ptr.slot < |r.value.mem| then Some(r.value.mem[ptr.slot]) else None
  }

  /** OnTransferEventReceived. A pointer outside the rings, which the source would follow blindly,
      is answered like one without a setup stage. */
  function OnTransferEvent(d: Device, e: Event): (Device, Completion) {
    if e.code != 1 && e.code != 13 then (d, Rejected(TransferFailed))
    else if TrbAt(d, e.ptr).None? then (d, Rejected(NoCorrespondingSetupStage))
    else
      var issuer := TrbAt(d, e.ptr).value;
      if issuer.ctl.ty == NORMAL then
        (d, InterruptCompleted(BufferOf(issuer), LengthOf(issuer) - e.residual))
      else if Get(d.table, e.ptr).None? then (d, Rejected(NoCorrespondingSetupStage))
      else
        var setupAt := TrbAt(d, Get(d.table, e.ptr).value);
        var d' := d.(table := Delete(d.table, e.ptr));
        if setupAt.None? then (d', Rejected(NotImplemented))
        else if issuer.ctl.ty == DATA_STAGE then
          (d', ControlCompleted(SetupOf(setupAt.value), BufferOf(issuer), LengthOf(issuer) - e.residual))
        else if issuer.ctl.ty == STATUS_STAGE then (d', ControlCompleted(SetupOf(setupAt.value), 0, 0))
        else (d', Rejected(NotImplemented))
  }

  // ---- invariant

  ghost predicate RingsOk(rings: seq<Option<Producer>>) {
    forall k | 0 <= k < |rings| && rings[k].Some? ::
      ProducerInv(rings[k].value, Idle) && |rings[k].value.mem| >= 4
  }

  /** Every table entry, live or left behind by a failed transfer, maps a slot to the slot before
      it on the same ring; that stays true of a slot however often it is reused. */
  ghost predicate TableOk(rings: seq<Option<Producer>>, table: seq<Entry<Ptr, Ptr>>) {
    forall i | 0 <= i < |table| && table[i].Used? ::
      var key := table[i].key;
      && 1 <= key.dci <= |rings| && rings[key.dci - 1].Some?
      && table[i].value.dci == key.dci && table[i].value.slot < Slots(rings[key.dci - 1].value)
      && key.slot == NextSlot(rings[key.dci - 1].value, table[i].value.slot)
  }

  /** The TRBs of a request are still in the ring. */
  ghost predicate Intact(p: Producer, r: Request) {
    && |p.at| == |p.pushed|
    && match r
       case ControlRequest(_, ioc, setup, buf, len, dirIn) =>
         && 1 <= ioc < |p.pushed| && |p.pushed| - Slots(p) <= ioc - 1
         && p.pushed[ioc - 1] == MakeSetupStage(setup, StageOf(buf, dirIn))
         && p.pushed[ioc] == Interrupting(buf, len, dirIn)
       case InterruptRequest(_, ioc, buf, len) =>
         && ioc < |p.pushed| && |p.pushed| - Slots(p) <= ioc
         && p.pushed[ioc] == MakeNormal(buf, len)
  }

  /** Where the completion of a request will point. */
  function EventPtr(p: Producer, r: Request): Ptr
    requires r.ioc < |p.at|
  {
    Ptr(r.dci, p.at[r.ioc])
  }

  /** A request in flight can still be completed. */
  ghost predicate LiveOk(rings: seq<Option<Producer>>, table: seq<Entry<Ptr, Ptr>>, r: Request) {
    && RingAt(rings, r.dci).Some? && Intact(RingAt(rings, r.dci).value, r)
    && (r.ControlRequest? ==> Has(table, EventPtr(RingAt(rings, r.dci).value, r)))
  }

  ghost predicate AllLive(rings: seq<Option<Producer>>, table: seq<Entry<Ptr, Ptr>>, live: seq<Request>) {
    forall i | 0 <= i < |live| :: LiveOk(rings, table, live[i])
  }

  ghost predicate Distinct(live: seq<Request>) {
    forall i, j | 0 <= i < j < |live| :: live[i].dci != live[j].dci || live[i].ioc != live[j].ioc
  }

  ghost predicate DeviceInv(d: Device) {
    && |d.rings| == ENDPOINTS
    && RingsOk(d.rings) && TableOk(d.rings, d.table)
    && AllLive(d.rings, d.table, d.live) && Distinct(d.live)
  }

  lemma PushFacts(p: Producer, t: Trb)
    requires ProducerInv(p, Idle) && t.ctl.ty != LINK
    ensures Pushable(p)
    ensures ProducerInv(Push(p, t), Idle) && |Push(p, t).mem| == |p.mem|
    ensures Push(p, t).pushed == p.pushed + [Payload(t)] && Push(p, t).at == p.at + [p.writeIndex]
    ensures Push(p, t).writeIndex == NextSlot(p, p.writeIndex)
  {
    StepsMakePush(p, t);
    hide Layout, History;
  }

  lemma ProducerFacts(p: Producer)
    requires ProducerInv(p, Idle)
    ensures Pushable(p) && |p.at| == |p.pushed| && Slots(p) >= 2
    ensures forall j | 0 <= j < |p.at| :: p.at[j] < Slots(p)
  {
    hide Layout;
  }

  lemma PushControlFacts(p: Producer, setup: SetupData, buf: addr, len: int, dirIn: bool)
    requires ProducerInv(p, Idle)
    ensures Pushable(p)
    ensures var q := PushControl(p, setup, buf, len, dirIn);
      && ProducerInv(q, Idle) && |q.mem| == |p.mem|
      && |q.pushed| == |p.pushed| + (if buf == 0 then 2 else 3)
      && p.pushed <= q.pushed && p.at <= q.at
      && q.pushed[|p.pushed|] == MakeSetupStage(setup, StageOf(buf, dirIn))
      && q.pushed[|p.pushed| + 1] == Interrupting(buf, len, dirIn)
      && |q.at| == |q.pushed| && |p.at| == |p.pushed|
      && q.at[|p.pushed| + 1] == NextSlot(p, p.writeIndex)
  {
    hide ProducerInv, Push;
    var t1, t2 := MakeSetupStage(setup, StageOf(buf, dirIn)), Interrupting(buf, len, dirIn);
    ProducerFacts(p);
    PushFacts(p, t1);
    PushFacts(Push(p, t1), t2);
    if buf != 0 {
      PushFacts(Push(Push(p, t1), t2), MakeStatusStage(!dirIn, false));
    }
  }

  // ---- requests

  /** Flow control on a ring: after n more pushes every request in flight is still intact. */
  predicate Room(d: Device, dci: nat, n: nat) {
    RingAt(d.rings, dci).Some? ==>
      forall r | r in d.live && r.dci == dci ::
        |RingAt(d.rings, dci).value.pushed| + n - Slots(RingAt(d.rings, dci).value)
          <= (if r.ControlRequest? then r.ioc - 1 else r.ioc)
  }

  /** Requests in flight on a ring survive pushes that stay within its room. */
  lemma IntactFramed(p: Producer, q: Producer, r: Request)
    requires Intact(p, r) && p.pushed <= q.pushed && p.at <= q.at && |q.mem| == |p.mem| && |q.at| == |q.pushed|
    requires |q.pushed| - Slots(q) <= (if r.ControlRequest? then r.ioc - 1 else r.ioc)
    ensures Intact(q, r) && EventPtr(q, r) == EventPtr(p, r)
  {
  }

  lemma TableFramed(rings: seq<Option<Producer>>, dci: nat, q: Producer, table: seq<Entry<Ptr, Ptr>>)
    requires TableOk(rings, table) && 1 <= dci <= |rings| && rings[dci - 1].Some?
    requires |q.mem| == |rings[dci - 1].value.mem|
    ensures TableOk(rings[dci - 1 := Some(q)], table)
  {
  }

  lemma RingsFramed(rings: seq<Option<Producer>>, dci: nat, q: Producer)
    requires RingsOk(rings) && 1 <= dci <= |rings| && ProducerInv(q, Idle) && |q.mem| >= 4
    ensures RingsOk(rings[dci - 1 := Some(q)])
  {
    hide ProducerInv;
  }

  lemma PutKeepsTable(rings: seq<Option<Producer>>, table: seq<Entry<Ptr, Ptr>>, key: Ptr, value: Ptr)
    requires TableOk(rings, table) && 1 <= key.dci <= |rings| && rings[key.dci - 1].Some?
    requires value.dci == key.dci && value.slot < Slots(rings[key.dci - 1].value)
    requires key.slot == NextSlot(rings[key.dci - 1].value, value.slot)
    ensures TableOk(rings, Put(table, key, value))
  {
  }

  /** A new ring state for one endpoint, with the old requests in flight. */
  lemma PushesKeepLive(rings: seq<Option<Producer>>, table: seq<Entry<Ptr, Ptr>>, dci: int, q: Producer,
                       table': seq<Entry<Ptr, Ptr>>, r: Request)
    requires LiveOk(rings, table, r) && RingAt(rings, dci).Some?
    requires var p := RingAt(rings, dci).value;
      p.pushed <= q.pushed && p.at <= q.at && |q.mem| == |p.mem| && |q.at| == |q.pushed|
    requires r.dci == dci ==> |q.pushed| - Slots(q) <= (if r.ControlRequest? then r.ioc - 1 else r.ioc)
    requires forall key | Has(table, key) :: Has(table', key)
    ensures LiveOk(rings[dci - 1 := Some(q)], table', r)
  {
    if r.dci == dci {
      IntactFramed(RingAt(rings, dci).value, q, r);
    }
  }

  lemma PutKeepsKeys(t: seq<Entry<Ptr, Ptr>>, key: Ptr, value: Ptr)
    ensures forall other | Has(t, other) :: Has(Put(t, key, value), other)
  {
    forall other | Has(t, other) ensures Has(Put(t, key, value), other) {
      PutThenGet(t, key, value, other);
    }
  }

  /** A ring that has grown within its room. */
  ghost predicate Grown(rings: seq<Option<Producer>>, live: seq<Request>, ep: int, q: Producer) {
    && RingAt(rings, ep).Some? && ProducerInv(q, Idle) && |q.mem| >= 4
    && var p := RingAt(rings, ep).value;
       && |q.mem| == |p.mem| && p.pushed <= q.pushed && p.at <= q.at && |q.at| == |q.pushed|
       && forall r | r in live && r.dci == ep ::
            |q.pushed| - Slots(q) <= (if r.ControlRequest? then r.ioc - 1 else r.ioc)
  }

  lemma AddKeepsLive(rings: seq<Option<Producer>>, table: seq<Entry<Ptr, Ptr>>, live: seq<Request>,
                     ep: int, q: Producer, table': seq<Entry<Ptr, Ptr>>, r: Request)
    requires AllLive(rings, table, live) && Distinct(live) && Grown(rings, live, ep, q)
    requires forall key | Has(table, key) :: Has(table', key)
    requires r.dci == ep && r.ioc >= |RingAt(rings, ep).value.pushed|
    requires LiveOk(rings[ep - 1 := Some(q)], table', r)
    ensures AllLive(rings[ep - 1 := Some(q)], table', live + [r]) && Distinct(live + [r])
  {
    hide ProducerInv, Has;
    forall i | 0 <= i < |live|
      ensures LiveOk(rings[ep - 1 := Some(q)], table', live[i]) && (live[i].dci == ep ==> live[i].ioc < r.ioc)
    {
      assert LiveOk(rings, table, live[i]) && live[i] in live;
      PushesKeepLive(rings, table, ep, q, table', live[i]);
    }
    hide LiveOk;
  }

  /** Adding a request to the ones in flight. */
  lemma AddKeepsInv(d: Device, ep: int, q: Producer, table: seq<Entry<Ptr, Ptr>>, r: Request)
    requires DeviceInv(d) && Grown(d.rings, d.live, ep, q) && 1 <= ep <= ENDPOINTS
    requires r.dci == ep && r.ioc >= |RingAt(d.rings, ep).value.pushed| && Intact(q, r)
    requires forall key | Has(d.table, key) :: Has(table, key)
    requires r.ControlRequest? ==> Has(table, EventPtr(q, r))
    requires TableOk(SetRing(d, ep, q).rings, table)
    ensures DeviceInv(SetRing(d, ep, q).(table := table, live := d.live + [r]))
  {
    hide ProducerInv, Has, TableOk, AllLive, Distinct, Intact;
    RingsFramed(d.rings, ep, q);
    hide RingsOk;
    AddKeepsLive(d.rings, d.table, d.live, ep, q, table, r);
  }

  /** What ControlIn and ControlOut do when they get as far as pushing. */
  lemma ControlPushes(d: Device, ep: int, setup: SetupData, buf: addr, len: int, dirIn: bool)
    requires 1 <= ep <= ENDPOINTS && RingAt(d.rings, ep).Some? && Pushable(RingAt(d.rings, ep).value)
    ensures var p := RingAt(d.rings, ep).value;
      var key, value := Ptr(ep, NextSlot(p, p.writeIndex)), Ptr(ep, p.writeIndex);
      ControlTransfer(d, ep, setup, buf, len, dirIn) ==
      (SetRing(d, ep, PushControl(p, setup, buf, len, dirIn)).(
         table := Put(d.table, key, value),
         live := d.live + [ControlRequest(ep, |p.pushed| + 1, setup, buf, len, dirIn)]), Success)
  {
    hide Put, PushControl;
  }

  /** Where the completion of the next control request on a ring will point. */
  function NextKey(p: Producer, ep: nat): Ptr { Ptr(ep, NextSlot(p, p.writeIndex)) }

  /** Issuing a control request keeps the invariant and puts it in flight, provided the ring has room
      and the table is not full, or still holds an entry for the same slot. */
  lemma ControlKeepsInv(d: Device, ep: int, setup: SetupData, buf: addr, len: int, dirIn: bool)
    requires DeviceInv(d) && 1 <= ep <= ENDPOINTS && RingAt(d.rings, ep).Some? && Room(d, ep, 3)
    requires !Full(d.table) || Has(d.table, NextKey(RingAt(d.rings, ep).value, ep))
    ensures Pushable(RingAt(d.rings, ep).value)
    ensures ControlTransfer(d, ep, setup, buf, len, dirIn).1 == Success
    ensures DeviceInv(ControlTransfer(d, ep, setup, buf, len, dirIn).0)
  {
    var p := RingAt(d.rings, ep).value;
    assert ProducerInv(p, Idle) && |p.mem| >= 4;
    ProducerFacts(p);
    PushControlFacts(p, setup, buf, len, dirIn);
    ControlPushes(d, ep, setup, buf, len, dirIn);
    hide ProducerInv, PushControl, Put, Has, MakeSetupStage, Interrupting, AllLive, Distinct, ControlTransfer, Full;
    var q := PushControl(p, setup, buf, len, dirIn);
    var r := ControlRequest(ep, |p.pushed| + 1, setup, buf, len, dirIn);
    var key, value := Ptr(ep, NextSlot(p, p.writeIndex)), Ptr(ep, p.writeIndex);
    assert Grown(d.rings, d.live, ep, q);
    assert Intact(q, r) && EventPtr(q, r) == key;
    hide Intact, Grown;
    TableFramed(d.rings, ep, q, d.table);
    PutKeepsTable(SetRing(d, ep, q).rings, d.table, key, value);
    PutThenGet(d.table, key, value, key);
    PutKeepsKeys(d.table, key, value);
    hide TableOk;
    AddKeepsInv(d, ep, q, Put(d.table, key, value), r);
  }

  lemma InterruptKeepsInv(d: Device, ep: nat, buf: addr, len: int)
    requires DeviceInv(d) && 1 <= ep <= ENDPOINTS && RingAt(d.rings, ep).Some? && Room(d, ep, 1)
    ensures Pushable(RingAt(d.rings, ep).value)
    ensures InterruptIn(d, ep, buf, len).1 == Success && DeviceInv(InterruptIn(d, ep, buf, len).0)
  {
    var p := RingAt(d.rings, ep).value;
    assert ProducerInv(p, Idle) && |p.mem| >= 4;
    ProducerFacts(p);
    PushFacts(p, MakeNormal(buf, len));
    hide ProducerInv, Push, MakeNormal, Has, AllLive, Distinct;
    var q := Push(p, MakeNormal(buf, len));
    var r := InterruptRequest(ep, |p.pushed|, buf, len);
    assert Grown(d.rings, d.live, ep, q) && Intact(q, r);
    TableFramed(d.rings, ep, q, d.table);
    AddKeepsInv(d, ep, q, d.table, r);
  }

  // ---- completions

  function Without(live: seq<Request>, i: nat): seq<Request>
    requires i < |live|
  {
    live[..i] + live[i + 1..]
  }

  /** The completion a request is owed: its own setup packet and buffer, and the bytes transferred. */
  function Owed(r: Request, residual: nat): Completion {
    match r
    case ControlRequest(_, _, setup, buf, len, _) =>
      if buf == 0 then ControlCompleted(setup, 0, 0) else ControlCompleted(setup, buf, Cut17(len) - residual)
    case InterruptRequest(_, _, buf, len) => InterruptCompleted(buf, Cut17(len) - residual)
  }

  /** In memory, the TRBs of a request in flight are where the completion handler looks for them. */
  lemma IntactInMemory(p: Producer, r: Request)
    requires ProducerInv(p, Idle) && Intact(p, r)
    ensures r.ioc < |p.at| && p.at[r.ioc] < Slots(p)
    ensures Payload(p.mem[p.at[r.ioc]]) == p.pushed[r.ioc]
    ensures r.ControlRequest? ==>
              && p.at[r.ioc - 1] < Slots(p) && NextSlot(p, p.at[r.ioc - 1]) == p.at[r.ioc]
              && Payload(p.mem[p.at[r.ioc - 1]]) == p.pushed[r.ioc - 1]
  {
    Retained(p, r.ioc, r.ioc);
    if r.ControlRequest? {
      Retained(p, r.ioc - 1, r.ioc - 1);
      Successor(p, r.ioc - 1);
    }
  }

  /** Whatever entry the search finds, it leads to the slot before. */
  lemma FoundLeadsBack(d: Device, key: Ptr)
    requires DeviceInv(d) && Has(d.table, key)
    ensures 1 <= key.dci <= |d.rings| && d.rings[key.dci - 1].Some?
    ensures Get(d.table, key).Some?
    ensures var v := Get(d.table, key).value;
      v.dci == key.dci && v.slot < Slots(d.rings[key.dci - 1].value)
      && key.slot == NextSlot(d.rings[key.dci - 1].value, v.slot)
  {
    var i := Find(d.table, key, 0);
    assert d.table[i].Used?;
  }

  /** NextSlot is injective on the slots of a ring. */
  lemma NextSlotInjective(p: Producer, a: nat, b: nat)
    requires a < Slots(p) && b < Slots(p) && NextSlot(p, a) == NextSlot(p, b)
    ensures a == b
  {
  }

  /** Clearing the cycle bit changes nothing the handler reads. */
  lemma PayloadReads(t: Trb, u: Trb)
    requires Payload(t) == u
    ensures SetupOf(t) == SetupOf(u) && BufferOf(t) == BufferOf(u) && LengthOf(t) == LengthOf(u)
    ensures t.ctl == u.ctl
  {
  }

  /** What the event of a request in flight leads the handler to. */
  lemma ReadsBack(d: Device, i: nat)
    requires DeviceInv(d) && i < |d.live|
    ensures RingAt(d.rings, d.live[i].dci).Some? && d.live[i].ioc < |RingAt(d.rings, d.live[i].dci).value.at|
    ensures var r := d.live[i];
      var key := EventPtr(RingAt(d.rings, r.dci).value, r);
      && TrbAt(d, key).Some?
      && match r
         case ControlRequest(_, _, setup, buf, len, dirIn) =>
           && Payload(TrbAt(d, key).value) == Interrupting(buf, len, dirIn)
           && Get(d.table, key).Some? && TrbAt(d, Get(d.table, key).value).Some?
           && Payload(TrbAt(d, Get(d.table, key).value).value) == MakeSetupStage(setup, StageOf(buf, dirIn))
         case InterruptRequest(_, _, buf, len) =>
           Payload(TrbAt(d, key).value) == MakeNormal(buf, len)
  {
    var r := d.live[i];
    assert LiveOk(d.rings, d.table, r);
    var p := RingAt(d.rings, r.dci).value;
    assert ProducerInv(p, Idle);
    IntactInMemory(p, r);
    hide ProducerInv, MakeSetupStage, Interrupting, MakeNormal, DeviceInv;
    if r.ControlRequest? {
      SetupReadsBackFrom(d, r, p);
    }
  }

  /** The entry for a control request leads to its Setup Stage. */
  lemma SetupReadsBackFrom(d: Device, r: Request, p: Producer)
    requires DeviceInv(d) && r.ControlRequest? && RingAt(d.rings, r.dci) == Some(p)
    requires ProducerInv(p, Idle) && Intact(p, r) && r.ioc < |p.at| && Has(d.table, EventPtr(p, r))
    ensures var key := EventPtr(p, r);
      && Get(d.table, key).Some? && TrbAt(d, Get(d.table, key).value).Some?
      && Payload(TrbAt(d, Get(d.table, key).value).value) == MakeSetupStage(r.setup, StageOf(r.buf, r.dirIn))
  {
    var key := EventPtr(p, r);
    IntactInMemory(p, r);
    FoundLeadsBack(d, key);
    hide DeviceInv, ProducerInv, MakeSetupStage, Interrupting, MakeNormal, Has, Get;
    NextSlotInjective(p, Get(d.table, key).value.slot, p.at[r.ioc - 1]);
  }

  /** A TRB in memory decodes to what was encoded into it. */
  lemma Decodes(t: Trb, setup: SetupData, stage: Stage, buf: addr, len: int, dirIn: bool)
    ensures Payload(t) == MakeSetupStage(setup, stage) ==> SetupOf(t) == setup
    ensures Payload(t) == MakeDataStage(buf, len, dirIn) ==>
              BufferOf(t) == buf && LengthOf(t) == Cut17(len) && t.ctl.ty == DATA_STAGE
    ensures Payload(t) == MakeStatusStage(true, true) ==> t.ctl.ty == STATUS_STAGE
  {
    PayloadReads(t, Payload(t));
    EncodingFacts(setup, stage, buf, len, dirIn);
    hide SetupOf, BufferOf, LengthOf, Cut17;
  }

  lemma DecodesNormal(t: Trb, buf: addr, len: int)
    requires Payload(t) == MakeNormal(buf, len)
    ensures BufferOf(t) == buf && LengthOf(t) == Cut17(len) && t.ctl.ty == NORMAL
  {
    PayloadReads(t, Payload(t));
    EncodingFacts(SetupData(0, 0, 0, 0, 0), NoData, buf, len, true);
    hide SetupOf, BufferOf, LengthOf, Cut17;
  }

  /** The handler's path for a control request whose TRBs decode. */
  lemma ControlPath(d: Device, e: Event, issuer: Trb, setupTrb: Trb)
    requires (e.code == 1 || e.code == 13) && TrbAt(d, e.ptr) == Some(issuer)
    requires issuer.ctl.ty == DATA_STAGE || issuer.ctl.ty == STATUS_STAGE
    requires Get(d.table, e.ptr).Some? && TrbAt(d, Get(d.table, e.ptr).value) == Some(setupTrb)
    ensures OnTransferEvent(d, e) ==
            (d.(table := Delete(d.table, e.ptr)),
             if issuer.ctl.ty == DATA_STAGE
             then ControlCompleted(SetupOf(setupTrb), BufferOf(issuer), LengthOf(issuer) - e.residual)
             else ControlCompleted(SetupOf(setupTrb), 0, 0))
  {
    hide TrbAt, Get, Delete, SetupOf, BufferOf, LengthOf;
  }

  lemma InterruptPath(d: Device, e: Event, issuer: Trb)
    requires (e.code == 1 || e.code == 13) && TrbAt(d, e.ptr) == Some(issuer) && issuer.ctl.ty == NORMAL
    ensures OnTransferEvent(d, e) == (d, InterruptCompleted(BufferOf(issuer), LengthOf(issuer) - e.residual))
  {
    hide TrbAt, Get, Delete, BufferOf, LengthOf;
  }

  lemma ControlIsOwed(d: Device, r: Request, e: Event, t: Trb, setupTrb: Trb)
    requires r.ControlRequest? && (e.code == 1 || e.code == 13) && TrbAt(d, e.ptr) == Some(t)
    requires Payload(t) == Interrupting(r.buf, r.len, r.dirIn)
    requires Get(d.table, e.ptr).Some? && TrbAt(d, Get(d.table, e.ptr).value) == Some(setupTrb)
    requires Payload(setupTrb) == MakeSetupStage(r.setup, StageOf(r.buf, r.dirIn))
    ensures OnTransferEvent(d, e) == (d.(table := Delete(d.table, e.ptr)), Owed(r, e.residual))
  {
    hide OnTransferEvent, TrbAt, Delete, Get, SetupOf, BufferOf, LengthOf, Cut17;
    hide MakeSetupStage, MakeDataStage, MakeStatusStage;
    Decodes(setupTrb, r.setup, StageOf(r.buf, r.dirIn), r.buf, r.len, r.dirIn);
    Decodes(t, r.setup, StageOf(r.buf, r.dirIn), r.buf, r.len, r.dirIn);
    ControlPath(d, e, t, setupTrb);
  }

  lemma InterruptIsOwed(d: Device, r: Request, e: Event, t: Trb)
    requires r.InterruptRequest? && (e.code == 1 || e.code == 13) && TrbAt(d, e.ptr) == Some(t)
    requires Payload(t) == MakeNormal(r.buf, r.len)
    ensures OnTransferEvent(d, e) == (d, Owed(r, e.residual))
  {
    hide OnTransferEvent, TrbAt, SetupOf, BufferOf, LengthOf, Cut17, MakeNormal;
    DecodesNormal(t, r.buf, r.len);
    InterruptPath(d, e, t);
  }

  /** Main theorem: the completion of any request in flight, with any residual and either success
      code, passes on exactly that request's setup packet, buffer and length. */
  lemma CompletionIsOwed(d: Device, i: nat, residual: nat, code: nat)
    requires DeviceInv(d) && i < |d.live| && (code == 1 || code == 13)
    ensures RingAt(d.rings, d.live[i].dci).Some? && d.live[i].ioc < |RingAt(d.rings, d.live[i].dci).value.at|
    ensures var r := d.live[i];
      var e := Event(EventPtr(RingAt(d.rings, r.dci).value, r), residual, code);
      && OnTransferEvent(d, e).1 == Owed(r, residual)
      && OnTransferEvent(d, e).0 == (if r.ControlRequest? then d.(table := Delete(d.table, e.ptr)) else d)
  {
    ReadsBack(d, i);
    hide *;
    var r := d.live[i];
    var key := EventPtr(RingAt(d.rings, r.dci).value, r);
    var e := Event(key, residual, code);
    if r.ControlRequest? {
      ControlIsOwed(d, r, e, TrbAt(d, key).value, TrbAt(d, Get(d.table, key).value).value);
    } else {
      InterruptIsOwed(d, r, e, TrbAt(d, key).value);
    }
  }

  lemma HasIsGet(t: seq<Entry<Ptr, Ptr>>, key: Ptr)
    ensures Has(t, key) <==> Get(t, key).Some?
  {
  }

  /** Requests in flight complete at different TRBs. */
  lemma DifferentPtrs(d: Device, i: nat, j: nat)
    requires DeviceInv(d) && i < |d.live| && j < |d.live| && i != j
    ensures RingAt(d.rings, d.live[i].dci).Some? && d.live[i].ioc < |RingAt(d.rings, d.live[i].dci).value.at|
    ensures RingAt(d.rings, d.live[j].dci).Some? && d.live[j].ioc < |RingAt(d.rings, d.live[j].dci).value.at|
    ensures EventPtr(RingAt(d.rings, d.live[i].dci).value, d.live[i])
            != EventPtr(RingAt(d.rings, d.live[j].dci).value, d.live[j])
  {
    var r, s := d.live[i], d.live[j];
    assert LiveOk(d.rings, d.table, r) && LiveOk(d.rings, d.table, s);
    assert r.dci != s.dci || r.ioc != s.ioc;
    if r.dci == s.dci {
      var p := RingAt(d.rings, r.dci).value;
      assert ProducerInv(p, Idle);
      hide ProducerInv, TableOk, RingsOk, AllLive;
      if r.ioc < s.ioc {
        Retained(p, r.ioc, s.ioc);
      } else {
        Retained(p, s.ioc, r.ioc);
      }
    }
  }

  lemma DropKeepsInv(d: Device, i: nat, table: seq<Entry<Ptr, Ptr>>)
    requires DeviceInv(d) && i < |d.live| && TableOk(d.rings, table)
    requires forall j | 0 <= j < |d.live| && j != i :: LiveOk(d.rings, table, d.live[j])
    ensures DeviceInv(d.(table := table, live := Without(d.live, i)))
  {
    hide LiveOk, TableOk, RingsOk;
    var live := Without(d.live, i);
    forall j | 0 <= j < |live| ensures LiveOk(d.rings, table, live[j]) {
      assert live[j] == d.live[if j < i then j else j + 1];
    }
    assert Distinct(live);
  }

  lemma DeleteKeepsTable(rings: seq<Option<Producer>>, table: seq<Entry<Ptr, Ptr>>, key: Ptr)
    requires TableOk(rings, table)
    ensures TableOk(rings, Delete(table, key))
  {
  }

  /** Completing a request leaves every other one in flight as it was. */
  lemma CompletionKeepsInv(d: Device, i: nat, residual: nat, code: nat)
    requires DeviceInv(d) && i < |d.live| && (code == 1 || code == 13)
    ensures RingAt(d.rings, d.live[i].dci).Some? && d.live[i].ioc < |RingAt(d.rings, d.live[i].dci).value.at|
    ensures var e := Event(EventPtr(RingAt(d.rings, d.live[i].dci).value, d.live[i]), residual, code);
      DeviceInv(OnTransferEvent(d, e).0.(live := Without(d.live, i)))
  {
    CompletionIsOwed(d, i, residual, code);
    var key := EventPtr(RingAt(d.rings, d.live[i].dci).value, d.live[i]);
    var table := if d.live[i].ControlRequest? then Delete(d.table, key) else d.table;
    DeleteKeepsTable(d.rings, d.table, key);
    forall j | 0 <= j < |d.live| && j != i ensures LiveOk(d.rings, table, d.live[j]) {
      OthersKeepKeys(d, i, j);
    }
    hide *;
    DropKeepsInv(d, i, table);
  }

  lemma OthersKeepKeys(d: Device, i: nat, j: nat)
    requires DeviceInv(d) && i < |d.live| && j < |d.live| && i != j
    ensures RingAt(d.rings, d.live[i].dci).Some? && d.live[i].ioc < |RingAt(d.rings, d.live[i].dci).value.at|
    ensures LiveOk(d.rings, d.table, d.live[j])
    ensures LiveOk(d.rings, Delete(d.table, EventPtr(RingAt(d.rings, d.live[i].dci).value, d.live[i])), d.live[j])
  {
    DifferentPtrs(d, i, j);
    assert LiveOk(d.rings, d.table, d.live[j]);
    var key := EventPtr(RingAt(d.rings, d.live[i].dci).value, d.live[i]);
    var other := EventPtr(RingAt(d.rings, d.live[j].dci).value, d.live[j]);
    DeleteThenGet(d.table, key, other);
    HasIsGet(d.table, other);
    HasIsGet(Delete(d.table, key), other);
    hide DeviceInv, Has, Get, Delete, Intact;
  }

  /** A failed transfer is forgotten by everyone but the table, whose entry stays behind. */
  lemma FailureKeepsInv(d: Device, i: nat)
    requires DeviceInv(d) && i < |d.live|
    ensures DeviceInv(d.(live := Without(d.live, i)))
  {
    hide LiveOk, TableOk, RingsOk;
    DropKeepsInv(d, i, d.table);
  }
}
