/** The second half of a device's life: rings for its endpoints, SetProtocol, and reports. */
module UsbService {
  import opened Options
  import opened Trbs
  import R = ProducerRing
  import opened ArrayMaps
  import opened Transfers
  import opened UsbDevice
  import opened UsbLifetime
  import D = Descriptors

  // ---- rings of the endpoints found

  lemma FreshRing(base: addr)
    requires base % 64 == 0
    ensures R.ProducerInv(R.InitProducer(base, RING_SIZE), R.Idle)
    ensures |R.InitProducer(base, RING_SIZE).mem| == RING_SIZE && R.InitProducer(base, RING_SIZE).pushed == []
  {
    R.InitInv(base, RING_SIZE);
  }

  lemma SetFreshRing(d: Transfers.Device, dci: nat, base: addr)
    requires DeviceInv(d) && d.live == [] && InUse(d.table) == 0 && 1 <= dci <= ENDPOINTS && base % 64 == 0
    ensures DeviceInv(SetRing(d, dci, R.InitProducer(base, RING_SIZE)))
  {
    FreshRing(base);
    UnusedIsFree(d.table);
    hide R.ProducerInv, R.InitProducer, InUse;
    RingsFramed(d.rings, dci, R.InitProducer(base, RING_SIZE));
  }

  lemma {:induction false} AllocFacts(d: Transfers.Device, configs: seq<D.EndpointConfig>, base: seq<addr>)
    requires DeviceInv(d) && d.live == [] && InUse(d.table) == 0 && NumbersOk(configs)
    requires |base| == ENDPOINTS + 1 && forall dci | 0 <= dci <= ENDPOINTS :: base[dci] % 64 == 0
    ensures var e := AllocRings(d, configs, base);
      && DeviceInv(e) && e.live == [] && e.table == d.table
      && RingAt(e.rings, EP0) == RingAt(d.rings, EP0)
      && forall i | 0 <= i < |configs| ::
           RingAt(e.rings, Address(configs[i])) == Some(R.InitProducer(base[Address(configs[i])], RING_SIZE))
    decreases |configs|
  {
    hide DeviceInv, InUse, R.InitProducer;
    if configs != [] {
      var n := |configs| - 1;
      assert NumbersOk(configs[..n]);
      AllocFacts(d, configs[..n], base);
      var dci := Address(configs[n]);
      assert 2 <= dci <= ENDPOINTS;
      AllocLength(d);
      SetFreshRing(AllocRings(d, configs[..n], base), dci, base[dci]);
    }
  }

  lemma AllocLength(d: Transfers.Device)
    requires DeviceInv(d)
    ensures |d.rings| == ENDPOINTS
  {
  }

  lemma RingsKeepInv(u: Usb, base: seq<addr>)
    requires Inv(u) && Enabled(u, Rings(base))
    ensures |u.dev.rings| == ENDPOINTS
    ensures Inv(u.(dev := AllocRings(u.dev, u.configs, base), stage := RingsReady))
  {
    AllocFacts(u.dev, u.configs, base);
    var i :| 0 <= i < |u.configs| && u.configs[i].transferType == 3 && Address(u.configs[i]) == u.hid.value.epIn;
    FreshRing(base[u.hid.value.epIn]);
    hide DeviceInv, InUse, AllocRings, R.InitProducer, RingAt, EpInOk;
  }

  // ---- OnEndpointsConfigured

  /** After k SetProtocol requests, k of the table's 16 entries and 2k of the ring's slots are used. */
  predicate SendingDev(dev: Transfers.Device, known: nat, n: nat) {
    && |dev.live| <= (if n == 0 then 0 else n - 1) && InUse(dev.table) == |dev.live| && |dev.table| == 16
    && Pushed(dev, EP0) == known + 2 * |dev.live|
    && Sorted(dev.live)
    && forall i | 0 <= i < |dev.live| ::
         && dev.live[i].ControlRequest? && dev.live[i].dci == EP0 && dev.live[i].buf == 0
         && known < dev.live[i].ioc < Pushed(dev, EP0)
  }

  ghost predicate Sending(u: Usb, n: nat) {
    && DeviceInv(u.dev) && |u.driverAt| == 16
    && RingAt(u.dev.rings, EP0).Some? && |RingAt(u.dev.rings, EP0).value.mem| == RING_SIZE
    && u.initialized && u.hid.Some? && !u.driverAt[0] && EpInOk(u.hid.value.epIn, u.driverAt, u.configs)
    && RingAt(u.dev.rings, u.hid.value.epIn).Some?
    && Pushed(u.dev, u.hid.value.epIn) == Known(u, u.hid.value.epIn)
    && SendingDev(u.dev, Known(u, EP0), n)
    && Addressed(u) && (u.dev.live == [] ==> !Full(u.waiters))
  }

  lemma SendingRoom(dev: Transfers.Device, known: nat, n: nat)
    requires SendingDev(dev, known, n) && n < 16
    requires RingAt(dev.rings, EP0).Some? && |RingAt(dev.rings, EP0).value.mem| == RING_SIZE
    ensures Room(dev, EP0, 3) && InUse(dev.table) < |dev.table|
  {
    forall r | r in dev.live && r.dci == EP0
      ensures Pushed(dev, EP0) + 3 - 31 <= (if r.ControlRequest? then r.ioc - 1 else r.ioc)
    {
      var i :| 0 <= i < |dev.live| && dev.live[i] == r;
    }
    hide SendingDev, InUse;
  }

  lemma SentDev(dev: Transfers.Device, e: Transfers.Device, known: nat, n: nat, r: Request)
    requires SendingDev(dev, known, n) && 1 <= n
    requires r.ControlRequest? && r.dci == EP0 && r.buf == 0 && r.ioc == Pushed(dev, EP0) + 1
    requires e.live == dev.live + [r] && InUse(e.table) == InUse(dev.table) + 1 && |e.table| == 16
    requires Pushed(e, EP0) == Pushed(dev, EP0) + 2
    ensures SendingDev(e, known, n + 1)
  {
    hide InUse, Pushed;
  }

  lemma SentAddressed(u: Usb, v: Usb)
    requires Addressed(u) && (u.dev.live == [] ==> !Full(u.waiters))
    requires forall i | 0 <= i < |u.dev.live| :: u.dev.live[i].ControlRequest?
    requires v.hid == Some(u.hid.value.(phase := 1))
    requires v.waiters == Put(u.waiters, SetProtocolSetup(u.hid.value), TheDriver)
    requires |v.dev.live| == |u.dev.live| + 1 && v.dev.live[..|u.dev.live|] == u.dev.live
    requires v.dev.live[|u.dev.live|].ControlRequest? && v.dev.live[|u.dev.live|].setup == SetProtocolSetup(u.hid.value)
    ensures Addressed(v)
  {
    PutThenGet(u.waiters, SetProtocolSetup(u.hid.value), TheDriver, SetProtocolSetup(u.hid.value));
    assert SetProtocolSetup(v.hid.value) == SetProtocolSetup(u.hid.value);
    if u.dev.live != [] {
      assert u.dev.live[0].ControlRequest?;
    }
    forall i | 0 <= i < |v.dev.live| ensures v.dev.live[i].setup == SetProtocolSetup(u.hid.value) {
      if i < |u.dev.live| {
        assert v.dev.live[i] == u.dev.live[i];
      }
    }
    hide Has, Full, Put, SetProtocolSetup;
  }

  lemma SendOne(u: Usb, n: nat)
    requires Sending(u, n) && n < 16 && u.driverAt[n]
    ensures Ready(u) && Sending(SetProtocol(u), n + 1)
  {
    SendingRoom(u.dev, Known(u, EP0), n);
    var setup := SetProtocolSetup(u.hid.value.(phase := 1));
    IssueFacts(u.dev, setup, 0, 0, false);
    var v := SetProtocol(u);
    SentDev(u.dev, v.dev, Known(u, EP0), n, v.dev.live[|u.dev.live|]);
    SentAddressed(u, v);
    hide DeviceInv, InUse, RingAt, ControlTransfer, SendingDev, Addressed, Room,
         Full, Put, Has, EpInOk, SetProtocolSetup;
  }

  lemma SendingReady(u: Usb, n: nat)
    requires Sending(u, n)
    ensures Ready(u) && |u.driverAt| == 16 && u.hid.Some?
    ensures n < 16 && !u.driverAt[n] ==> Sending(u, n + 1)
  {
    assert R.ProducerInv(u.dev.rings[EP0 - 1].value, R.Idle);
    ProducerFacts(u.dev.rings[EP0 - 1].value);
    hide R.ProducerInv, Addressed, InUse, Sorted, EpInOk, TableOk, AllLive, Distinct;
  }

  lemma ConfiguredUnfolds(u: Usb, n: nat)
    requires n <= 16 && Ready(u) && |u.driverAt| == 16 && u.hid.Some?
    ensures n == 16 ==> OnEndpointsConfigured(u, n) == u
    ensures n < 16 && !u.driverAt[n] ==> OnEndpointsConfigured(u, n) == OnEndpointsConfigured(u, n + 1)
    ensures n < 16 && u.driverAt[n] && Ready(SetProtocol(u)) ==>
              OnEndpointsConfigured(u, n) == OnEndpointsConfigured(SetProtocol(u), n + 1)
  {
    hide Ready, ControlTransfer, Put;
  }

  lemma {:induction false} SendAll(u: Usb, n: nat)
    requires Sending(u, n) && n <= 16
    ensures Ready(u) && Sending(OnEndpointsConfigured(u, n), 16)
    decreases 16 - n
  {
    SendingReady(u, n);
    ConfiguredUnfolds(u, n);
    hide *;
    if n < 16 {
      if u.driverAt[n] {
        SendOne(u, n);
        SendingReady(SetProtocol(u), n + 1);
        SendAll(SetProtocol(u), n + 1);
      } else {
        SendAll(u, n + 1);
      }
    }
  }
}
