/** The port protocol on a real command ring: handlers push their commands word by word into the
    32-entry ring of xhci.hpp while the controller fetches them, and a completion handler reads the
    issuing command's type back from ring memory. */
module CommandRing {
  import opened Trbs
  import opened ProducerRing
  import RingPush
  import P = PortProtocol
  import T = PortTheorems

  const RING_SIZE := 32

  /** The driver's protocol state and the command ring with its controller. */
  datatype Host = Host(x: P.Xhc, r: ProducerRing.Sys)

  /** The command TRB the source pushes: type, slot id in bits 24 to 31 of the last word, and for
      the two device commands the input context pointer without its low four bits. */
  function Encode(c: P.Command, inputContext: nat -> addr): Trb {
    match c
    case EnableSlot => Trb(0, 0, 0, Control(0, ENABLE_SLOT, 0), false)
    case AddressDevice(slot) =>
      Trb(Low(inputContext(slot)) - Low(inputContext(slot)) % 16, High(inputContext(slot)), 0,
          Control(0, ADDRESS_DEVICE, slot * 0x100), false)
    case ConfigureEndpoint(slot) =>
      Trb(Low(inputContext(slot)) - Low(inputContext(slot)) % 16, High(inputContext(slot)), 0,
          Control(0, CONFIGURE_ENDPOINT, slot * 0x100), false)
  }

  function Init(base: addr): Host { Host(P.Start(), ProducerRing.Init(base, RING_SIZE)) }

  datatype Action =
    | Handle(a: P.Action)         // software handles an event
    | Execute(slot: nat)          // the controller executes a command it has fetched
    | SoftwareStore               // one step of the push in progress
    | ControllerFetch             // one step of the controller's ring traversal

  /** The trb_type a completion handler finds at the command TRB pointer of the next event. */
  function IssuerType(s: Host): nat
    requires s.x.handled < |s.r.c.from| && s.r.c.from[s.x.handled] < |s.r.p.mem|
  {
    s.r.p.mem[s.r.c.from[s.x.handled]].ctl.ty
  }

  predicate Sane(s: Host) {
    && P.Sized(s.x) && P.ContextPortsInRange(s.x)
    && s.r.p.writeIndex < |s.r.p.mem| && s.r.c.index < |s.r.p.mem|
    && (s.x.handled < |s.x.results| ==>
          s.x.handled < |s.r.c.from| && s.r.c.from[s.x.handled] < |s.r.p.mem|)
  }

  /** Software handles one event at a time, after the last push has finished; the controller executes
      what it has fetched. There is no flow control here: it has to be proved. */
  predicate Enabled(maxPorts: nat, s: Host, a: Action)
    requires Sane(s)
  {
    match a
    case Handle(e) => !e.Execute? && s.r.pc.Idle? && P.Enabled(maxPorts, s.x, e)
    case Execute(slot) => |s.x.results| < |s.r.c.consumed| && P.Enabled(maxPorts, s.x, P.Execute(slot))
    case SoftwareStore => true
    case ControllerFetch => true
  }

  /** The handler's effect, with the issuer type taken from ring memory. */
  function HandleOn(maxPorts: nat, s: Host, e: P.Action): P.Xhc
    requires maxPorts < P.PORTS && Sane(s) && P.Enabled(maxPorts, s.x, e)
  {
    match e
    case Complete(connected) =>
      P.OnCommandCompletion(s.x, IssuerType(s), s.x.results[s.x.handled], connected).0
      .(handled := s.x.handled + 1)
    case _ => P.Step(maxPorts, s.x, e).0
  }

  function Next(maxPorts: nat, s: Host, a: Action, inputContext: nat -> addr): Host
    requires maxPorts < P.PORTS && Sane(s) && Enabled(maxPorts, s, a)
  {
    match a
    case Handle(e) =>
      var y := HandleOn(maxPorts, s, e);
      if |y.commands| > |s.x.commands|
      then Host(y, s.r.(pc := Data(0, Encode(y.commands[|s.x.commands|], inputContext))))
      else Host(y, s.r)
    case Execute(slot) => s.(x := P.Step(maxPorts, s.x, P.Execute(slot)).0)
    case SoftwareStore => s.(r := ProducerRing.Next(s.r, ProducerStep))
    case ControllerFetch => s.(r := ProducerRing.Next(s.r, ConsumerStep))
  }

  // ---- invariant

  /** The commands of the protocol are what has been handed to `Push`, in order. */
  ghost predicate Mirrors(commands: seq<P.Command>, begun: seq<Trb>, inputContext: nat -> addr) {
    && |begun| == |commands|
    && forall i | 0 <= i < |commands| :: begun[i] == Encode(commands[i], inputContext)
  }

  ghost predicate Inv(maxPorts: nat, s: Host, inputContext: nat -> addr) {
    && P.Inv(maxPorts, s.x) && ProducerRing.Inv(s.r) && |s.r.p.mem| == RING_SIZE
    && Mirrors(s.x.commands, Begun(s.r), inputContext)
    && (forall i | 0 <= i < |s.x.commands| :: T.SlotInRange(s.x.commands[i]))
    && |s.x.results| <= |s.r.c.consumed|
  }

  lemma EncodeFacts(c: P.Command, inputContext: nat -> addr)
    ensures Encode(c, inputContext).ctl.ty == P.TypeOf(c) != LINK
    ensures Payload(Encode(c, inputContext)) == Encode(c, inputContext)
    ensures T.SlotInRange(c) ==> Encode(c, inputContext).ctl.Fits()
  {
  }

  /** The last word as it lies in memory, one number: the cycle bit, type 9, 11 or 12 in bits 10 to 15, the
      slot id in bits 24 to 31, and no other bit. Words 0 and 1 hold the input context's address. */
  lemma CommandWord(p: Producer, c: P.Command, inputContext: nat -> addr)
    requires p.writeIndex < |p.mem| && T.SlotInRange(c)
    ensures Encode(c, inputContext).ctl.Fits()
    ensures RingPush.WordStored(p, Encode(c, inputContext))
            == (if p.cycleBit then 1 else 0) +
               match c
               case EnableSlot => 0x2400
               case AddressDevice(slot) => 0x2C00 + 0x100_0000 * slot
               case ConfigureEndpoint(slot) => 0x3000 + 0x100_0000 * slot
    ensures var t := Encode(c, inputContext);
      && t.w2 == 0
      && t.w0 + 0x1_0000_0000 * t.w1 ==
         if c.EnableSlot? then 0 else inputContext(c.slot) - inputContext(c.slot) % 16
  {
    EncodeFacts(c, inputContext);
    RingPush.LastWordStored(p, Encode(c, inputContext));
    if !c.EnableSlot? {
      PointerWords(inputContext(c.slot));
    }
    hide RingPush.WordStored;
  }

  lemma PointerWords(a: addr)
    ensures Low(a) - Low(a) % 16 + 0x1_0000_0000 * High(a) == a - a % 16
  {
    assert a == 16 * (0x1000_0000 * High(a)) + Low(a);
  }

  /** The flow control the ring needs is a consequence of the protocol. */
  lemma NeverFull(maxPorts: nat, s: Host, inputContext: nat -> addr)
    requires Inv(maxPorts, s, inputContext)
    ensures ProducerRing.Outstanding(s.r) <= 9 < RING_SIZE - 2
  {
    T.AtMostNineOutstanding(maxPorts, s.x);
  }

  /** What the handler reads at the event's TRB pointer is the type of the command that completed,
      however many commands were pushed since. */
  lemma IssuerIsTheCommand(maxPorts: nat, s: Host, inputContext: nat -> addr)
    requires Inv(maxPorts, s, inputContext) && s.r.pc.Idle? && s.x.handled < |s.x.results|
    ensures s.x.handled < |s.r.c.from| && s.r.c.from[s.x.handled] < |s.r.p.mem|
    ensures s.x.handled < |s.x.commands| && IssuerType(s) == P.TypeOf(s.x.commands[s.x.handled])
  {
    T.AtMostNineOutstanding(maxPorts, s.x);
    var j := s.x.handled;
    assert |s.r.p.pushed| - Slots(s.r.p) <= j < |s.r.p.pushed|;
    RingPush.Retained(s.r.p, j, j);
    EncodeFacts(s.x.commands[j], inputContext);
  }

  /** With the type read from memory, a completion is handled as the protocol says. */
  lemma HandleIsStep(maxPorts: nat, s: Host, inputContext: nat -> addr, e: P.Action)
    requires Inv(maxPorts, s, inputContext) && Sane(s) && P.Enabled(maxPorts, s.x, e) && s.r.pc.Idle?
    ensures HandleOn(maxPorts, s, e) == P.Step(maxPorts, s.x, e).0
  {
    if e.Complete? {
      IssuerIsTheCommand(maxPorts, s, inputContext);
    }
  }

  lemma SaneInv(maxPorts: nat, s: Host, inputContext: nat -> addr)
    requires Inv(maxPorts, s, inputContext)
    ensures P.Sized(s.x) && P.ContextPortsInRange(s.x) && Sane(s)
  {
    P.InvInRange(maxPorts, s.x);
    ConsumedIsPrefix(s.r);
    FetchedInRange(s.r);
    hide ProducerInv;
  }

  /** Every slot the controller consumed from lies on the ring. */
  lemma FetchedInRange(r: ProducerRing.Sys)
    requires ProducerRing.Inv(r)
    ensures forall j | 0 <= j < |r.c.from| :: r.c.from[j] < |r.p.mem|
  {
  }

  lemma IssueKeeps(maxPorts: nat, s: Host, y: P.Xhc, c: P.Command, inputContext: nat -> addr)
    requires Inv(maxPorts, s, inputContext) && s.r.pc.Idle? && P.Inv(maxPorts, y)
    requires y.commands == s.x.commands + [c] && T.SlotInRange(c) && |y.results| == |s.x.results|
    ensures Inv(maxPorts, Host(y, s.r.(pc := Data(0, Encode(c, inputContext)))), inputContext)
  {
    NeverFull(maxPorts, s, inputContext);
    EncodeFacts(c, inputContext);
    ProducerRing.NextKeepsInv(s.r, BeginPush(Encode(c, inputContext)));
    hide ProducerInv, ConsumerInv, Encode;
  }

  lemma HandleKeepsInv(maxPorts: nat, s: Host, e: P.Action, inputContext: nat -> addr)
    requires Inv(maxPorts, s, inputContext) && Sane(s) && Enabled(maxPorts, s, Handle(e))
    ensures Inv(maxPorts, Next(maxPorts, s, Handle(e), inputContext), inputContext)
  {
    HandleIsStep(maxPorts, s, inputContext, e);
    P.StepKeepsInv(maxPorts, s.x, e);
    T.OneCommandPerStep(maxPorts, s.x, e);
    ResultsKept(maxPorts, s.x, e);
    var y := P.Step(maxPorts, s.x, e).0;
    if |y.commands| > |s.x.commands| {
      var c :| y.commands == s.x.commands + [c] && T.SlotInRange(c);
      IssueKeeps(maxPorts, s, y, c, inputContext);
    }
    hide ProducerInv, ConsumerInv, Encode, HandleOn;
  }

  lemma ExecuteKeepsInv(maxPorts: nat, s: Host, slot: nat, inputContext: nat -> addr)
    requires Inv(maxPorts, s, inputContext) && Sane(s) && Enabled(maxPorts, s, Execute(slot))
    ensures Inv(maxPorts, Next(maxPorts, s, Execute(slot), inputContext), inputContext)
  {
    hide ProducerInv, ConsumerInv, Encode;
    P.StepKeepsInv(maxPorts, s.x, P.Execute(slot));
  }

  /** A step on the ring alone, whichever side makes it. */
  lemma RingStepKeepsInv(maxPorts: nat, s: Host, a: ProducerRing.Action, inputContext: nat -> addr)
    requires Inv(maxPorts, s, inputContext) && Sane(s) && !a.BeginPush?
    ensures Inv(maxPorts, s.(r := ProducerRing.Next(s.r, a)), inputContext)
  {
    ProducerRing.NextKeepsInv(s.r, a);
    StepBegins(s.r, a);
    ConsumedGrows(s.r, a);
    hide ProducerRing.Inv, Encode, ProducerRing.Next, Begun;
  }

  lemma ConsumedGrows(r: ProducerRing.Sys, a: ProducerRing.Action)
    requires InBounds(r)
    ensures |r.c.consumed| <= |ProducerRing.Next(r, a).c.consumed|
    ensures |ProducerRing.Next(r, a).p.mem| == |r.p.mem|
  {
  }

  /** Every step of the product keeps its invariant; nothing but the hardware's obligations is
      assumed. */
  lemma NextKeepsInv(maxPorts: nat, s: Host, a: Action, inputContext: nat -> addr)
    requires Inv(maxPorts, s, inputContext) && Sane(s) && Enabled(maxPorts, s, a)
    ensures Inv(maxPorts, Next(maxPorts, s, a, inputContext), inputContext)
  {
    hide Inv;
    match a
    case Handle(e) => HandleKeepsInv(maxPorts, s, e, inputContext);
    case Execute(slot) => ExecuteKeepsInv(maxPorts, s, slot, inputContext);
    case SoftwareStore => RingStepKeepsInv(maxPorts, s, ProducerStep, inputContext);
    case ControllerFetch => RingStepKeepsInv(maxPorts, s, ConsumerStep, inputContext);
  }

  ghost predicate Runs(maxPorts: nat, s: Host, acts: seq<Action>, t: Host, inputContext: nat -> addr)
    requires maxPorts < P.PORTS
    decreases |acts|
  {
    if acts == [] then s == t
    else
      && Sane(s) && Enabled(maxPorts, s, acts[0])
      && Runs(maxPorts, Next(maxPorts, s, acts[0], inputContext), acts[1..], t, inputContext)
  }

  lemma {:induction false} RunKeepsInv(maxPorts: nat, s: Host, acts: seq<Action>, t: Host, inputContext: nat -> addr)
    requires maxPorts < P.PORTS
    requires Inv(maxPorts, s, inputContext) && Runs(maxPorts, s, acts, t, inputContext)
    ensures Inv(maxPorts, t, inputContext)
    decreases |acts|
  {
    hide Inv, Next;
    if acts != [] {
      NextKeepsInv(maxPorts, s, acts[0], inputContext);
      RunKeepsInv(maxPorts, Next(maxPorts, s, acts[0], inputContext), acts[1..], t, inputContext);
    }
  }

  /** Main theorem: in every interleaving of handlers, stores and fetches the command ring never
      fills beyond nine, the controller executes exactly the issued commands in order, and each
      completion handler reads the type of the command that completed and, unless there was no slot,
      succeeds. */
  lemma CommandTheorem(maxPorts: nat, base: addr, acts: seq<Action>, t: Host, inputContext: nat -> addr)
    requires maxPorts < P.PORTS && base % 16 == 0
    requires Runs(maxPorts, Init(base), acts, t, inputContext)
    ensures Sane(t) && |t.r.p.mem| == 32 && !t.r.c.lost && ProducerRing.Outstanding(t.r) <= 9
    ensures |t.r.c.consumed| <= |t.x.commands|
    ensures forall i | 0 <= i < |t.r.c.consumed| :: t.r.c.consumed[i] == Encode(t.x.commands[i], inputContext)
    ensures forall i | 0 <= i < |t.x.commands| :: T.SlotInRange(t.x.commands[i])
    ensures forall connected: nat -> bool | Enabled(maxPorts, t, Handle(P.Complete(connected))) ::
              && IssuerType(t) == P.TypeOf(t.x.commands[t.x.handled])
              && (P.OnCommandCompletion(t.x, IssuerType(t), t.x.results[t.x.handled], connected).1 == P.Success
                  <==> t.x.commands[t.x.handled] != P.AddressDevice(0))
  {
    P.StartInv(maxPorts);
    InitInv(base, RING_SIZE);
    RunKeepsInv(maxPorts, Init(base), acts, t, inputContext);
    SaneInv(maxPorts, t, inputContext);
    NeverFull(maxPorts, t, inputContext);
    ConsumedCommands(maxPorts, t, inputContext);
    ProtocolInv(maxPorts, t, inputContext);
    hide Inv;
    forall connected: nat -> bool | Enabled(maxPorts, t, Handle(P.Complete(connected)))
      ensures IssuerType(t) == P.TypeOf(t.x.commands[t.x.handled])
      ensures P.OnCommandCompletion(t.x, IssuerType(t), t.x.results[t.x.handled], connected).1 == P.Success
              <==> t.x.commands[t.x.handled] != P.AddressDevice(0)
    {
      IssuerIsTheCommand(maxPorts, t, inputContext);
      ProtocolInv(maxPorts, t, inputContext);
      P.StepKeepsInv(maxPorts, t.x, P.Complete(connected));
    }
  }

  lemma ProtocolInv(maxPorts: nat, s: Host, inputContext: nat -> addr)
    requires Inv(maxPorts, s, inputContext)
    ensures P.Inv(maxPorts, s.x) && !s.r.c.lost
    ensures forall i | 0 <= i < |s.x.commands| :: T.SlotInRange(s.x.commands[i])
  {
  }

  lemma ConsumedCommands(maxPorts: nat, s: Host, inputContext: nat -> addr)
    requires Inv(maxPorts, s, inputContext)
    ensures !s.r.c.lost && |s.r.c.consumed| <= |s.x.commands|
    ensures forall i | 0 <= i < |s.r.c.consumed| :: s.r.c.consumed[i] == Encode(s.x.commands[i], inputContext)
  {
    hide ProducerInv, Encode;
    assert s.r.c.consumed <= s.r.p.pushed && s.r.p.pushed <= Begun(s.r);
  }

  lemma ResultsKept(maxPorts: nat, x: P.Xhc, e: P.Action)
    requires P.Inv(maxPorts, x) && P.Enabled(maxPorts, x, e) && !e.Execute?
    ensures P.ContextPortsInRange(x) && P.Step(maxPorts, x, e).0.results == x.results
  {
    P.InvInRange(maxPorts, x);
    hide P.Inv;
  }
}
