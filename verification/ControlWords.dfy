/** What a request leaves in ring memory, word by word and in numbers, for every combination of direction
    and buffer. */
module ControlWords {
  import opened Trbs
  import opened ProducerRing
  import opened RingPush
  import opened Transfers

  /** The words in memory of the TRB of push j; the last word without its cycle bit. */
  predicate Reads(q: Producer, j: nat, w0: nat, w1: nat, w2: nat, last: nat) {
    && j < |q.at| && q.at[j] < |q.mem|
    && var t := q.mem[q.at[j]];
       t.w0 == w0 && t.w1 == w1 && t.w2 == w2 && t.ctl.Fits() && t.LastWord() - t.LastWord() % 2 == last
  }

  lemma PayloadWords(t: Trb)
    requires t.ctl.Fits()
    ensures Payload(t).ctl.Fits() && t.LastWord() - t.LastWord() % 2 == Payload(t).LastWord()
  {
  }

  /** A TRB pushed within the last lap is read back with the words it was given. */
  lemma ReadsPushed(q: Producer, j: nat)
    requires ProducerInv(q, Idle) && |q.pushed| - Slots(q) <= j < |q.pushed|
    requires q.pushed[j].ctl.Fits() && Payload(q.pushed[j]) == q.pushed[j]
    ensures Reads(q, j, q.pushed[j].w0, q.pushed[j].w1, q.pushed[j].w2, q.pushed[j].LastWord())
  {
    Retained(q, j, j);
    ProducerFacts(q);
    PayloadWords(q.mem[q.at[j]]);
    hide ProducerInv;
  }

  lemma SetupWords(s: SetupData, stage: Stage)
    ensures var t := MakeSetupStage(s, stage);
      && t.ctl.Fits() && Payload(t) == t
      && t.w0 == s.requestType + 0x100 * s.request + 0x1_0000 * s.value && t.w1 == s.index + 0x1_0000 * s.length
      && t.w2 == 8
      && t.LastWord() == 0x840 + (if stage.NoData? then 0 else if stage.OutData? then 0x2_0000 else 0x3_0000)
  {
  }

  lemma OtherWords(buf: addr, len: int, dirIn: bool, ioc: bool)
    ensures var t := MakeDataStage(buf, len, dirIn);
      && t.ctl.Fits() && Payload(t) == t && t.w0 == buf % 0x1_0000_0000 && t.w1 == buf / 0x1_0000_0000
      && t.w2 == len % 0x2_0000 && t.LastWord() == 0xC20 + if dirIn then 0x1_0000 else 0
    ensures var t := MakeStatusStage(dirIn, ioc);
      && t.ctl.Fits() && Payload(t) == t && t.w0 == t.w1 == t.w2 == 0
      && t.LastWord() == 0x1000 + (if ioc then 0x20 else 0) + if dirIn then 0x1_0000 else 0
    ensures var t := MakeNormal(buf, len);
      && t.ctl.Fits() && Payload(t) == t && t.w0 == buf % 0x1_0000_0000 && t.w1 == buf / 0x1_0000_0000
      && t.w2 == len % 0x2_0000 && t.LastWord() == 0x424
  {
  }

  /** The TRBs of a control request, in order. */
  lemma ControlPushed(p: Producer, setup: SetupData, buf: addr, len: int, dirIn: bool)
    requires ProducerInv(p, Idle)
    ensures Pushable(p)
    ensures var q := PushControl(p, setup, buf, len, dirIn);
      && ProducerInv(q, Idle) && |q.mem| == |p.mem|
      && q.pushed == p.pushed + [MakeSetupStage(setup, StageOf(buf, dirIn))]
                     + (if buf == 0 then [MakeStatusStage(true, true)]
                        else [MakeDataStage(buf, len, dirIn), MakeStatusStage(!dirIn, false)])
  {
    SetupWords(setup, StageOf(buf, dirIn));
    OtherWords(buf, len, dirIn, true);
    OtherWords(buf, len, true, true);
    OtherWords(buf, len, !dirIn, false);
    NoLinks(setup, buf, len, dirIn);
    ProducerFacts(p);
    hide ProducerInv, Push, MakeSetupStage, MakeDataStage, MakeStatusStage, Control.Fits, Trb.LastWord;
    var t1, t2 := MakeSetupStage(setup, StageOf(buf, dirIn)), Interrupting(buf, len, dirIn);
    PushFacts(p, t1);
    PushFacts(Push(p, t1), t2);
    if buf != 0 {
      PushFacts(Push(Push(p, t1), t2), MakeStatusStage(!dirIn, false));
    }
  }

  lemma NoLinks(setup: SetupData, buf: addr, len: int, dirIn: bool)
    ensures MakeSetupStage(setup, StageOf(buf, dirIn)).ctl.ty != LINK && Interrupting(buf, len, dirIn).ctl.ty != LINK
    ensures MakeStatusStage(!dirIn, false).ctl.ty != LINK
  {
  }

  /** A Setup Stage in memory: the packet, length 8, immediate data (bit 6), type 2 in bits 10 to 15, and
      transfer type 3 for data in, 2 for data out, 0 for no data in bits 16 and 17. */
  predicate SetupAt(q: Producer, n: nat, setup: SetupData, buf: addr, dirIn: bool) {
    Reads(q, n, setup.requestType + 0x100 * setup.request + 0x1_0000 * setup.value,
          setup.index + 0x1_0000 * setup.length, 8,
          if buf == 0 then 0x840 else if dirIn then 0x3_0840 else 0x2_0840)
  }

  /** A Data Stage: the buffer, the length in 17 bits, interrupt on completion (bit 5), type 3, and its
      direction in bit 16. */
  predicate DataAt(q: Producer, n: nat, buf: addr, len: int, dirIn: bool) {
    Reads(q, n, buf % 0x1_0000_0000, buf / 0x1_0000_0000, len % 0x2_0000, if dirIn then 0x1_0C20 else 0xC20)
  }

  /** A Status Stage: type 4, its direction, and perhaps interrupt on completion. */
  predicate StatusAt(q: Producer, n: nat, dirIn: bool, ioc: bool) {
    Reads(q, n, 0, 0, 0, if ioc then (if dirIn then 0x1_1020 else 0x1020) else if dirIn then 0x1_1000 else 0x1000)
  }

  /** The two or three TRBs of ControlIn (dirIn) and ControlOut from push n on. Without data the Status Stage is
      in and interrupts; with data it goes the other way than the data and does not. */
  predicate RequestReads(q: Producer, n: nat, setup: SetupData, buf: addr, len: int, dirIn: bool) {
    && |q.pushed| == n + (if buf == 0 then 2 else 3)
    && SetupAt(q, n, setup, buf, dirIn)
    && (buf == 0 ==> StatusAt(q, n + 1, true, true))
    && (buf != 0 ==> DataAt(q, n + 1, buf, len, dirIn) && StatusAt(q, n + 2, !dirIn, false))
  }

  lemma AppendedAt(a: seq<Trb>, b: seq<Trb>, c: seq<Trb>)
    requires c == a + b
    ensures |c| == |a| + |b| && forall i | 0 <= i < |b| :: c[|a| + i] == b[i]
  {
  }

  lemma PushedAt(p: Producer, setup: SetupData, buf: addr, len: int, dirIn: bool)
    requires ProducerInv(p, Idle)
    ensures Pushable(p)
    ensures var q, n := PushControl(p, setup, buf, len, dirIn), |p.pushed|;
      && ProducerInv(q, Idle) && |q.mem| == |p.mem| && |q.pushed| == n + (if buf == 0 then 2 else 3)
      && q.pushed[n] == MakeSetupStage(setup, StageOf(buf, dirIn))
      && (buf == 0 ==> q.pushed[n + 1] == MakeStatusStage(true, true))
      && (buf != 0 ==>
            q.pushed[n + 1] == MakeDataStage(buf, len, dirIn) && q.pushed[n + 2] == MakeStatusStage(!dirIn, false))
  {
    ControlPushed(p, setup, buf, len, dirIn);
    hide ProducerInv, PushControl, MakeSetupStage, MakeDataStage, MakeStatusStage, StageOf;
    var t1 := MakeSetupStage(setup, StageOf(buf, dirIn));
    var rest := if buf == 0 then [MakeStatusStage(true, true)]
                else [MakeDataStage(buf, len, dirIn), MakeStatusStage(!dirIn, false)];
    var q := PushControl(p, setup, buf, len, dirIn);
    assert q.pushed == p.pushed + ([t1] + rest);
    AppendedAt(p.pushed, [t1] + rest, q.pushed);
    assert q.pushed[|p.pushed| + 0] == t1;
    assert ([t1] + rest)[1] == rest[0];
  }

  lemma SetupReads(q: Producer, n: nat, setup: SetupData, buf: addr, dirIn: bool)
    requires ProducerInv(q, Idle) && |q.pushed| - Slots(q) <= n < |q.pushed|
    requires q.pushed[n] == MakeSetupStage(setup, StageOf(buf, dirIn))
    ensures SetupAt(q, n, setup, buf, dirIn)
  {
    SetupWords(setup, StageOf(buf, dirIn));
    hide ProducerInv, MakeSetupStage, Reads, Control.Fits, Trb.LastWord;
    ReadsPushed(q, n);
  }

  lemma DataReads(q: Producer, n: nat, buf: addr, len: int, dirIn: bool)
    requires ProducerInv(q, Idle) && |q.pushed| - Slots(q) <= n < |q.pushed|
    requires q.pushed[n] == MakeDataStage(buf, len, dirIn)
    ensures DataAt(q, n, buf, len, dirIn)
  {
    OtherWords(buf, len, dirIn, true);
    hide ProducerInv, MakeDataStage, MakeStatusStage, MakeNormal, Reads, Control.Fits, Trb.LastWord;
    ReadsPushed(q, n);
  }

  lemma StatusReads(q: Producer, n: nat, dirIn: bool, ioc: bool)
    requires ProducerInv(q, Idle) && |q.pushed| - Slots(q) <= n < |q.pushed|
    requires q.pushed[n] == MakeStatusStage(dirIn, ioc)
    ensures StatusAt(q, n, dirIn, ioc)
  {
    OtherWords(0, 0, dirIn, ioc);
    hide ProducerInv, MakeDataStage, MakeStatusStage, MakeNormal, Reads, Control.Fits, Trb.LastWord;
    ReadsPushed(q, n);
  }

  /** Main theorem: so every control request reads, wherever on the ring it lies. */
  lemma RequestInMemory(p: Producer, setup: SetupData, buf: addr, len: int, dirIn: bool)
    requires ProducerInv(p, Idle) && |p.mem| >= 4
    ensures Pushable(p) && RequestReads(PushControl(p, setup, buf, len, dirIn), |p.pushed|, setup, buf, len, dirIn)
  {
    PushedAt(p, setup, buf, len, dirIn);
    var q, n := PushControl(p, setup, buf, len, dirIn), |p.pushed|;
    hide ProducerInv, PushControl, MakeSetupStage, MakeDataStage, MakeStatusStage, StageOf, SetupAt, DataAt, StatusAt;
    SetupReads(q, n, setup, buf, dirIn);
    if buf == 0 {
      StatusReads(q, n + 1, true, true);
    } else {
      DataReads(q, n + 1, buf, len, dirIn);
      StatusReads(q, n + 2, !dirIn, false);
    }
  }

  /** And so does the endpoint's ring after the call, the driver's first request among them. */
  lemma ControlInMemory(d: Device, ep: int, setup: SetupData, buf: addr, len: int, dirIn: bool)
    requires DeviceInv(d) && 1 <= ep <= ENDPOINTS && RingAt(d.rings, ep).Some?
    ensures Pushable(RingAt(d.rings, ep).value)
    ensures var (e, err) := ControlTransfer(d, ep, setup, buf, len, dirIn);
      && err == Success && RingAt(e.rings, ep).Some?
      && RequestReads(RingAt(e.rings, ep).value, |RingAt(d.rings, ep).value.pushed|, setup, buf, len, dirIn)
  {
    var p := RingAt(d.rings, ep).value;
    assert ProducerInv(p, Idle) && |p.mem| >= 4;
    ProducerFacts(p);
    RequestInMemory(p, setup, buf, len, dirIn);
    ControlPushes(d, ep, setup, buf, len, dirIn);
    hide ProducerInv, PushControl, RequestReads, ControlTransfer, DeviceInv;
  }

  /** An interrupt request: the buffer, the length in 17 bits, type 1 with both interrupt flags. */
  lemma ReportInMemory(d: Device, ep: nat, buf: addr, len: int)
    requires DeviceInv(d) && 1 <= ep <= ENDPOINTS && RingAt(d.rings, ep).Some?
    ensures Pushable(RingAt(d.rings, ep).value)
    ensures var (e, err), n := InterruptIn(d, ep, buf, len), |RingAt(d.rings, ep).value.pushed|;
      && err == Success && RingAt(e.rings, ep).Some?
      && Reads(RingAt(e.rings, ep).value, n, buf % 0x1_0000_0000, buf / 0x1_0000_0000, len % 0x2_0000, 0x424)
  {
    var p := RingAt(d.rings, ep).value;
    assert ProducerInv(p, Idle) && |p.mem| >= 4;
    ProducerFacts(p);
    OtherWords(buf, len, true, true);
    PushFacts(p, MakeNormal(buf, len));
    hide DeviceInv, ProducerInv, Reads, MakeNormal, Push, Control.Fits, Trb.LastWord;
    ReadsPushed(Push(p, MakeNormal(buf, len)), |p.pushed|);
  }

  /** When the call is refused, and with which error; nothing changes then. */
  lemma RefusedExactly(d: Device, ep: int, setup: SetupData, buf: addr, len: int, dirIn: bool)
    requires DeviceInv(d) && ep != 0
    ensures RingAt(d.rings, ep).Some? ==> Pushable(RingAt(d.rings, ep).value)
    ensures var (e, err) := ControlTransfer(d, ep, setup, buf, len, dirIn);
      && (err == InvalidEndpointNumber <==> ep < 0 || ep >= 32)
      && (err == TransferRingNotSet <==> 1 <= ep <= 31 && d.rings[ep - 1].None?)
      && (err == Success <==> 1 <= ep <= 31 && d.rings[ep - 1].Some?)
      && (err != Success ==> e == d)
  {
    if RingAt(d.rings, ep).Some? {
      assert ProducerInv(RingAt(d.rings, ep).value, Idle);
      ProducerFacts(RingAt(d.rings, ep).value);
    }
    hide ProducerInv, PushControl, TableOk, AllLive, Distinct;
  }
}
