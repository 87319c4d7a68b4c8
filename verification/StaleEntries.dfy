/** A device whose transfers keep failing: every failed control request leaves its entry in the
    setup-stage table, and after sixteen of them the next request's completion is lost. */
module StaleEntries {
  import opened Trbs
  import opened ProducerRing
  import opened RingPush
  import opened ArrayMaps
  import opened Transfers
  import T = TransferRuns
  import U = UsbDevice
  import UsbRuns

  /** The failures so far have taken k entries of the table, all for odd slots or slot 0. */
  ghost predicate Failed(d: Transfers.Device, k: nat) {
    && DeviceInv(d) && d.live == [] && |d.table| == 16 && InUse(d.table) == k <= 16
    && RingAt(d.rings, U.EP0).Some? && |RingAt(d.rings, U.EP0).value.mem| == U.RING_SIZE
    && RingAt(d.rings, U.EP0).value.writeIndex == (if k < 16 then 2 * k else 1)
    && OddKeys(d.table)
  }

  predicate OddKeys(t: seq<Entry<Ptr, Ptr>>) {
    forall i | 0 <= i < |t| && t[i].Used? :: t[i].key.slot == 0 || t[i].key.slot % 2 == 1
  }

  /** A request without data on the default control pipe. */
  function NoData(setup: SetupData): T.Action { T.Control(U.EP0, setup, 0, 0, false) }

  /** n such requests, each failing before the next. */
  function FailedRequests(setup: SetupData, code: nat, n: nat): seq<T.Action> {
    if n == 0 then [] else [NoData(setup), T.Fail(0, code)] + FailedRequests(setup, code, n - 1)
  }

  /** Where two pushes leave the write index. */
  lemma TwoPushes(p: Producer, setup: SetupData)
    requires ProducerInv(p, Idle)
    ensures Pushable(p)
    ensures var q := PushControl(p, setup, 0, 0, false);
      q.writeIndex == NextSlot(p, NextSlot(p, p.writeIndex)) && |q.mem| == |p.mem|
  {
    hide ProducerInv, MakeSetupStage, Interrupting;
    ProducerFacts(p);
    var t := MakeSetupStage(setup, StageOf(0, false));
    NotLinks(setup);
    PushFacts(p, t);
    PushFacts(Push(p, t), Interrupting(0, 0, false));
  }

  lemma NotLinks(setup: SetupData)
    ensures MakeSetupStage(setup, StageOf(0, false)).ctl.ty != LINK && Interrupting(0, 0, false).ctl.ty != LINK
  {
  }

  lemma ControlRing(d: Transfers.Device)
    requires DeviceInv(d) && RingAt(d.rings, U.EP0).Some?
    ensures ProducerInv(RingAt(d.rings, U.EP0).value, Idle) && Pushable(RingAt(d.rings, U.EP0).value)
  {
    assert ProducerInv(d.rings[U.EP0 - 1].value, Idle);
    ProducerFacts(d.rings[U.EP0 - 1].value);
    hide ProducerInv, TableOk, AllLive, Distinct;
  }

  lemma SameSize(t: seq<Entry<Ptr, Ptr>>, key: Ptr, value: Ptr)
    ensures |Put(t, key, value)| == |t|
  {
  }

  lemma RequestKeepsOdd(t: seq<Entry<Ptr, Ptr>>, key: Ptr, value: Ptr)
    requires OddKeys(t) && (key.slot == 0 || key.slot % 2 == 1)
    ensures OddKeys(Put(t, key, value))
  {
  }

  /** The table after the request: one more entry, for the slot the completion will point to. */
  lemma RequestTable(d: Transfers.Device, setup: SetupData, k: nat)
    requires Failed(d, k) && k < 16
    ensures Pushable(RingAt(d.rings, U.EP0).value) && !Full(d.table)
    ensures var t := ControlTransfer(d, U.EP0, setup, 0, 0, false).0.table;
      |t| == 16 && InUse(t) == k + 1 && OddKeys(t)
  {
    hide DeviceInv, ProducerInv, ControlTransfer, PushControl, InUse, Full, OddKeys, Has, Get, Put;
    var p := RingAt(d.rings, U.EP0).value;
    ControlRing(d);
    FullExactly(d.table);
    ControlPushes(d, U.EP0, setup, 0, 0, false);
    var key, value := NextKey(p, U.EP0), Ptr(U.EP0, p.writeIndex);
    PutThenGet(d.table, key, value, key);
    RequestKeepsOdd(d.table, key, value);
    SameSize(d.table, key, value);
  }

  /** The ring after the request. */
  lemma RequestRing(d: Transfers.Device, setup: SetupData, k: nat)
    requires Failed(d, k) && k < 16
    ensures Pushable(RingAt(d.rings, U.EP0).value)
    ensures var e := ControlTransfer(d, U.EP0, setup, 0, 0, false).0;
      && |e.live| == 1 && RingAt(e.rings, U.EP0).Some? && |RingAt(e.rings, U.EP0).value.mem| == U.RING_SIZE
      && RingAt(e.rings, U.EP0).value.writeIndex == (if k < 15 then 2 * k + 2 else 1)
  {
    var p := RingAt(d.rings, U.EP0).value;
    assert ProducerInv(p, Idle);
    ProducerFacts(p);
    TwoPushes(p, setup);
    ControlPushes(d, U.EP0, setup, 0, 0, false);
    hide DeviceInv, ProducerInv, ControlTransfer, PushControl, InUse, OddKeys, Put;
  }

  lemma RequestFails(d: Transfers.Device, setup: SetupData, code: nat, k: nat)
    requires Failed(d, k) && k < 16 && code != 1 && code != 13
    ensures T.Enabled(d, NoData(setup))
    ensures var e := T.Next(d, NoData(setup));
      && T.Enabled(e, T.Fail(0, code)) && Failed(T.Next(e, T.Fail(0, code)), k + 1)
  {
    RequestTable(d, setup, k);
    RequestRing(d, setup, k);
    RoomAtRest(d);
    ControlKeepsInv(d, U.EP0, setup, 0, 0, false);
    hide DeviceInv, ControlTransfer, InUse, Full, OddKeys, RingAt, Room, Pushable;
    FailureForgets(T.Next(d, NoData(setup)), code);
  }

  lemma FailureForgets(e: Transfers.Device, code: nat)
    requires DeviceInv(e) && |e.live| == 1 && code != 1 && code != 13
    ensures T.Enabled(e, T.Fail(0, code))
    ensures T.Next(e, T.Fail(0, code)) == e.(live := []) && DeviceInv(e.(live := []))
  {
    assert LiveOk(e.rings, e.table, e.live[0]);
    FailureKeepsInv(e, 0);
    T.FailedEvent(e, T.EventOf(e, 0, 0, code));
    hide DeviceInv, OnTransferEvent, RingAt, EventPtr;
  }

  lemma RoomAtRest(d: Transfers.Device)
    requires d.live == []
    ensures Room(d, U.EP0, 3)
  {
  }

  lemma {:induction false} RequestsFail(d: Transfers.Device, setup: SetupData, code: nat, k: nat, n: nat)
      returns (e: Transfers.Device)
    requires Failed(d, k) && k + n == 16 && code != 1 && code != 13
    ensures T.Runs(d, FailedRequests(setup, code, n), e) && Failed(e, 16)
    decreases n
  {
    hide Failed, T.Enabled, T.Next;
    if n == 0 {
      e := d;
    } else {
      RequestFails(d, setup, code, k);
      var f := T.Next(d, NoData(setup));
      e := RequestsFail(T.Next(f, T.Fail(0, code)), setup, code, k + 1, n - 1);
      var rest := FailedRequests(setup, code, n - 1);
      assert ([NoData(setup), T.Fail(0, code)] + rest)[1..] == [T.Fail(0, code)] + rest;
      assert ([T.Fail(0, code)] + rest)[1..] == rest;
      assert T.Runs(f, [T.Fail(0, code)] + rest, e);
    }
  }

  /** Main theorem: sixteen requests without data that fail, whatever they ask for, fill the table of
      a new device. The ring has room and no entry is left for the next slot, so the completion of the
      next request, whatever it is, is rejected: its caller is never told. */
  lemma SixteenFailuresLoseTheNext(base: addr, failing: SetupData, failure: nat, setup: SetupData, buf: addr, len: int,
                                   dirIn: bool, residual: nat, code: nat)
      returns (e: Transfers.Device)
    requires base % 64 == 0 && failure != 1 && failure != 13 && (code == 1 || code == 13)
    ensures T.Runs(U.NewDevice(base).dev, FailedRequests(failing, failure, 16), e)
    ensures DeviceInv(e) && Full(e.table) && e.live == [] && Room(e, U.EP0, 3)
    ensures RingAt(e.rings, U.EP0).Some? && Pushable(RingAt(e.rings, U.EP0).value)
    ensures var key := NextKey(RingAt(e.rings, U.EP0).value, U.EP0);
      && !Has(e.table, key)
      && OnTransferEvent(ControlTransfer(e, U.EP0, setup, buf, len, dirIn).0, Event(key, residual, code)).1
         == Rejected(NoCorrespondingSetupStage)
  {
    var d := U.NewDevice(base).dev;
    NewIsFailed(base);
    e := RequestsFail(d, failing, failure, 0, 16);
    FullExactly(e.table);
    RoomAtRest(e);
    assert NextKey(RingAt(e.rings, U.EP0).value, U.EP0) == Ptr(U.EP0, 2);
    EvenIsAbsent(e.table, Ptr(U.EP0, 2));
    hide DeviceInv, OddKeys, InUse, Full, Has, OnTransferEvent, ControlTransfer, U.NewDevice, T.Runs, FailedRequests;
    T.LostExactlyWhenDropped(e, U.EP0, setup, buf, len, dirIn, residual, code);
  }

  lemma EvenIsAbsent(t: seq<Entry<Ptr, Ptr>>, key: Ptr)
    requires OddKeys(t) && key.slot == 2
    ensures !Has(t, key)
  {
  }

  lemma NewIsFailed(base: addr)
    requires base % 64 == 0
    ensures Failed(U.NewDevice(base).dev, 0)
  {
    UsbRuns.NewDeviceInv(base);
    UsbRuns.AllFreeUnused(U.NewDevice(base).dev.table);
    hide DeviceInv, InUse;
  }
}
