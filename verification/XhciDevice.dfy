/** The class `xhci::Device`: transfer rings and the setup-stage table changed in place. */
module XhciDevice {
  import opened Options
  import opened Trbs
  import opened ProducerRing
  import opened RingPush
  import opened ArrayMaps
  import opened ArrayMapClass
  import opened Transfers

  class Device {
    const transferRings: array<Option<Producer>>
    const setupStageMap: ArrayMap<Ptr, Ptr>

    // The requests in flight.
    ghost var live: seq<Request>

    ghost function View(): Transfers.Device
      reads this, transferRings, setupStageMap.table
    {
      Transfers.Device(transferRings[..], setupStageMap.table[..], live)
    }

    /** Ring states and table entries do not share memory. */
    ghost predicate Valid()
      reads this, transferRings, setupStageMap.table
    {
      && transferRings.Length == ENDPOINTS && setupStageMap.table.Length == 16
      && forall i | 0 <= i < ENDPOINTS && transferRings[i].Some? :: Pushable(transferRings[i].value)
    }

    constructor ()
      ensures Valid() && fresh(transferRings) && fresh(setupStageMap) && fresh(setupStageMap.table)
      ensures View() == Transfers.Device(seq(ENDPOINTS, _ => None), seq(16, _ => Free), [])
      ensures DeviceInv(View()) && InUse(View().table) == 0
    {
      transferRings := new Option<Producer>[ENDPOINTS](_ => None);
      setupStageMap := new ArrayMap(16);
      live := [];
      new;
      FreshTable(setupStageMap.table[..]);
    }

    /** AllocTransferRing on memory from the allocator. */
    method AllocTransferRing(index: nat, base: addr, bufSize: nat)
      requires Valid() && 1 <= index <= ENDPOINTS && bufSize >= 4 && base % 16 == 0
      modifies transferRings
      ensures Valid() && View() == SetRing(old(View()), index, InitProducer(base, bufSize))
      ensures ProducerInv(InitProducer(base, bufSize), Idle)
    {
      InitInv(base, bufSize);
      transferRings[index - 1] := Some(InitProducer(base, bufSize));
    }

    /** ControlIn and ControlOut share their shape; `buf` 0 is a null pointer. The null data buffer
        selects the two-stage form. */
    method Control(ep: int, setup: SetupData, buf: addr, len: int, dirIn: bool) returns (err: Error)
      requires Valid() && ep != 0
      modifies this`live, transferRings, setupStageMap.table
      ensures Valid() && (View(), err) == ControlTransfer(old(View()), ep, setup, buf, len, dirIn)
    {
      if ep / 2 < 0 || 15 < ep / 2 {
        return InvalidEndpointNumber;
      }
      if transferRings[ep - 1].None? {
        return TransferRingNotSet;
      }
      var tr := transferRings[ep - 1].value;
      live := live + [ControlRequest(ep, |tr.pushed| + 1, setup, buf, len, dirIn)];
      var first := tr.writeIndex;
      tr := Push(tr, MakeSetupStage(setup, StageOf(buf, dirIn)));
      var second := tr.writeIndex;
      if buf != 0 {
        tr := Push(tr, MakeDataStage(buf, len, dirIn));
        tr := Push(tr, MakeStatusStage(!dirIn, false));
      } else {
        tr := Push(tr, MakeStatusStage(true, true));
      }
      transferRings[ep - 1] := Some(tr);
      setupStageMap.Put(Ptr(ep, second), Ptr(ep, first));
      return Success;
    }

    method InterruptIn(ep: nat, buf: addr, len: int) returns (err: Error)
      requires Valid() && 1 <= ep <= ENDPOINTS
      modifies this`live, transferRings
      ensures Valid() && (View(), err) == Transfers.InterruptIn(old(View()), ep, buf, len)
    {
      if transferRings[ep - 1].None? {
        return TransferRingNotSet;
      }
      var tr := transferRings[ep - 1].value;
      live := live + [InterruptRequest(ep, |tr.pushed|, buf, len)];
      transferRings[ep - 1] := Some(Push(tr, MakeNormal(buf, len)));
      return Success;
    }

    /** The TRB at a pointer, read from ring memory. */
    method Load(ptr: Ptr) returns (t: Option<Trb>)
      requires Valid()
      ensures t == TrbAt(View(), ptr)
    {
      t := None;
      if 1 <= ptr.dci <= ENDPOINTS && transferRings[ptr.dci - 1].Some? {
        var tr := transferRings[ptr.dci - 1].value;
        if ptr.slot < |tr.mem| {
          t := Some(tr.mem[ptr.slot]);
        }
      }
    }

    method OnTransferEventReceived(e: Event) returns (c: Completion)
      requires Valid()
      modifies setupStageMap.table
      ensures Valid() && (View(), c) == OnTransferEvent(old(View()), e)
    {
      if e.code != 1 && e.code != 13 {
        return Rejected(TransferFailed);
      }
      var issuer := Load(e.ptr);
      if issuer.None? {
        return Rejected(NoCorrespondingSetupStage);
      }
      var trb := issuer.value;
      if trb.ctl.ty == NORMAL {
        return InterruptCompleted(BufferOf(trb), LengthOf(trb) - e.residual);
      }
      var optSetupStage := setupStageMap.Get(e.ptr);
      if optSetupStage.None? {
        return Rejected(NoCorrespondingSetupStage);
      }
      setupStageMap.Delete(e.ptr);
      var setupStage := Load(optSetupStage.value);
      if setupStage.None? {
        return Rejected(NotImplemented);
      }
      var setup := SetupOf(setupStage.value);
      if trb.ctl.ty == DATA_STAGE {
        c := ControlCompleted(setup, BufferOf(trb), LengthOf(trb) - e.residual);
      } else if trb.ctl.ty == STATUS_STAGE {
        c := ControlCompleted(setup, 0, 0);
      } else {
        c := Rejected(NotImplemented);
      }
    }
  }

  lemma {:induction false} FreshTable(t: seq<Entry<Ptr, Ptr>>)
    requires forall i | 0 <= i < |t| :: t[i].Free?
    ensures InUse(t) == 0
    decreases |t|
  {
    if t != [] {
      FreshTable(t[..|t| - 1]);
    }
  }
}
