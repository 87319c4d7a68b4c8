# Verified model of the MikanOS USB stack

MikanOS drives USB keyboards and mice through an xHCI host controller. This project models that
driver as a concurrent system, software steps interleaved with controller steps, and proves what its
layers promise to each other. Three smaller cores of the kernel and its boot loader are modelled
beside it.

## The layers

1. **Rings.** `Trb.dfy` and `ProducerRing.dfy` model `Ring` word by word against a controller that
   follows sections 4.9.2, 4.9.3 and 6.4.4.1 of the xHCI specification: it fetches the word with the
   cycle bit first, follows Link TRBs and toggles its cycle state. `RingPush.dfy` shows that a push is
   atomic as far as anyone can tell and that buf_size - 2 is the exact number of TRBs a ring can take.
   `Ring.dfy` is the class with the controller running between any two stores. `EventRing.dfy` and
   `EventLoop.dfy` do the same for `EventRing` and `ProcessEvent` (section 4.9.4).
2. **Port configuration.** `PortProtocol.dfy` is the state machine of ports, the `addressing_port`
   lock, slots and outstanding commands; `PortSteps.dfy` states what each event does to each port and which
   command it leads to; `PortTheorems.dfy` proves what every run keeps;
   `PortQueue.dfy` proves who waits for the lock, how long, and exactly when for ever;
   `PortTurns.dfy` proves exactly when the holder of the lock can still hand it on; `XhciDriver.dfy`
   holds the handlers on the state they change in place; `CommandRing.dfy` puts the protocol on the
   32-entry command ring and proves the flow control the ring needs; `DriverLoop.dfy` adds the event
   ring, so that handlers see nothing but the events the controller wrote.
3. **Transfers and devices.** `ArrayMap.dfy`, `Transfers.dfy`, `TransferRuns.dfy` and
   `XhciDevice.dfy` encode requests into TRBs and decode them on completion; `ControlWords.dfy` gives the
   requests as numbers in memory; `StaleEntries.dfy` is a run in which a completion is lost.
   `Descriptors.dfy` walks configuration descriptors and says which driver and endpoints their bytes select.
   `UsbDevice.dfy` and `UsbDeviceClass.dfy` are `usb::Device` and its HID driver; `UsbSteps.dfy` states what
   each completion does to them; `UsbLifetime.dfy`,
   `UsbService.dfy`, `UsbRuns.dfy`, `UsbBoot.dfy` and `UsbRings.dfy` follow a device through
   initialisation and service, and discharge the flow control of its transfer rings.
   `EndpointSetup.dfy` shows that the controller is told to start where the rings start.
   `DriverSystem.dfy` joins the port protocol and the devices of all slots in one system.
4. **The whole driver.** `Deliveries.dfy` encodes transfer events and keeps track of the answers on
   their way; `WholeDriver.dfy` joins ports, slots, both rings of the controller and all devices,
   with every completion coming through the event ring and found again from the words of its event.
5. **Memory.** `Allocator.dfy` is the bump allocator, with 64-bit sums and bit masks.

Independent of these: `PciScan.dfy`, `PciTree.dfy` and `PciBytes.dfy` (the recursive PCI scan, and the bytes
it reads), `ElfLoader.dfy` and `ElfImage.dfy` (the loader's segment copying, and the file as it was written),
`ConsoleText.dfy` and `Console.dfy` (the scrolling console).

A class models an object the source changes in place. Its methods are proved to do what a function
on values says, and the theorems are about those functions.

## What is assumed of the environment

- The controller executes commands in order; the source does not look at completion codes of command
  events. Enable Slot returns a slot id in 1..8 that is not in use, and slot id 0 if there is none. Address
  Device copies the input slot context to the device context, unless it is for slot id 0. Port ids lie in
  1..max_ports.
- The controller completes or fails the requests of one ring in order, sends an event for a TRB only
  after fetching it, and writes no event past the one before ERDP.
- A device's context is zero before its first Address Device command, as the pool is zeroed and blocks
  are not reused.
- A USB device sends well-formed descriptors (correct length bytes) with at most 16 endpoints,
  numbered 1 to 15, one of them interrupt-in. Descriptors that are not well formed are taken for the
  wrong type and answered with kInvalidPhase.
- Allocations succeed, except in the allocator's own theorems and in `EndpointSetup`. There a failed
  allocation ends the call, which the source does not do: it writes a context without a ring and goes on.
- PCI configuration space does not change during the scan.

## Where the code does not do what one might expect

- `ResetPort` reports success for a disconnected port, so a hand-off that meets a disconnected first
  waiter ends the search. The other ports, plugged in or not, then wait until a port connects that never
  did before (`HandOffExact`, `StrandedExactly`), and for ever if there is none left (`StrandedForever`,
  with a run of three ports in `AbandonedForEver`).
- Slots are never given back, and the handler of Enable Slot does not look at the completion code. At most
  eight devices are ever addressed (`AtMostEightAddressed`). A ninth port gets slot id 0, is addressed with
  it, and the completion of that is rejected, as the device context of slot 0 names no port: the port keeps
  the lock for good and nobody is addressed any more (`NinthPortKeepsLock`). `TurnEndsExactly` says when the
  holder of the lock can hand it on.
- `ArrayMap::Put` drops an entry silently when the table is full; the request is issued all the same and
  its completion is lost (`LostExactlyWhenDropped`). Failed transfers leave their entries behind, so
  sixteen failures suffice (`SixteenFailuresLoseTheNext`). The kernel's own requests never fill the table
  (`RingsNeverOverrun`), whichever of them fail.
- The header comment of `AllocMem` promises failure when there is no room; a size that overflows 64 bits
  is granted (`InPoolExactly`, `OverflowIsGranted`). A failed call moves the allocation pointer, and
  `FailureStarvesExactly` says which later calls fail because of it (`FailedPageStarves` is one).
- For a multi-function host bridge the scan starts with function 1 and lists bus 0 only if a bridge leads
  back to it (`BusZeroIsMissed`).
- Without a PT_LOAD segment the loader asks for one page at the last address (`NothingToLoad`).

## Model

| member | source | states |
|---|---|---|
| `ProducerRing.FifoTheorem` | kernel/usb/xhci/ring.cpp:12-54 | for every ring of at least 3 TRBs and every interleaving of single stores with the controller's fetches, within at most buf_size - 2 outstanding TRBs, the controller never leaves the ring and has consumed a prefix of exactly the TRBs handed to `Push`, in order, once each and whole, over any number of laps |
| `ProducerRing.StepRefinesFifo` | kernel/usb/xhci/ring.cpp:30-54 | each step of either side is an enqueue (only the store of a TRB's last word), a dequeue of the oldest TRB, or invisible |
| `ProducerRing.NextKeepsInv` | kernel/usb/xhci/ring.cpp:30-54 | every step of software or controller, also half-way through a push or a Link TRB, keeps the ring's invariant |
| `ProducerRing.OwnedSlot` | kernel/usb/xhci/ring.cpp:35-36 | a slot the controller takes for its own by the cycle bit holds the next unconsumed TRB, or the Link TRB exactly when a lap is over; never a stale or half-written one |
| `ProducerRing.Drains` | kernel/usb/xhci/ring.cpp:39-54 | between pushes the controller alone empties the queue in at most 5 steps a TRB plus 5 for the Link TRB |
| `RingPush.StepsMakePush` | kernel/usb/xhci/ring.cpp:30-54 | the single stores of `Push` add up to one atomic operation that keeps the invariant |
| `RingPush.LastWordStored` | kernel/usb/xhci/ring.cpp:35-36 | as a 32-bit number the last word stored is the caller's with bit 0 replaced by the cycle bit and no other bit changed |
| `RingPush.LinkWordStored` | kernel/usb/xhci/ring.cpp:45-47 | the Link TRB in memory: the ring's base in words 0 and 1, 0, and the last word 0x1802 plus the cycle bit |
| `RingPush.Retained` | kernel/usb/xhci/ring.cpp:39-54 | a pushed TRB can be read back from its slot until a whole ring of TRBs has followed it |
| `RingPush.Successor` | kernel/usb/xhci/ring.cpp:43-51 | consecutive TRBs lie in consecutive slots, slot 0 following the last one before the Link TRB |
| `RingPush.OneTooMany` | kernel/usb/xhci/ring.cpp:39-54 | one TRB beyond buf_size - 2 leaves the controller stuck if and only if it was parked on the Link TRB |
| `RingPush.BoundIsExact` | kernel/usb/xhci/ring.cpp:39-54 | for every ring size a run within the bound reaches a state where one more push blocks the controller for good: the bound cannot be raised |
| `Rings.Ring.constructor` | kernel/usb/xhci/ring.cpp:12-28 | `Initialize` establishes the start state of the ring protocol |
| `Rings.Ring.CopyToLast` | kernel/usb/xhci/ring.cpp:30-37 | the four stores, the last with the cycle bit, with the controller running between them |
| `Rings.Ring.Push` | kernel/usb/xhci/ring.cpp:39-54 | whatever the controller does between the stores, the ring ends as one atomic push leaves it, Link TRB and cycle bit included |
| `EventRings.ExactlyOnce` | kernel/usb/xhci/ring.cpp:56-114 | in every run software handles exactly the events written, in order, once each and complete, and none is overwritten before it is popped |
| `EventRings.FrontIsOldest` | kernel/usb/xhci/ring.hpp:82-94 | `HasFront` holds if and only if a published event is not popped yet, and `Front` is then the oldest one, complete |
| `EventRings.NextKeepsInv` | kernel/usb/xhci/ring.cpp:101-114 | word stores of the controller, polling, handling and popping keep the event ring's invariant |
| `EventLoop.EventRing.Pop` | kernel/usb/xhci/ring.cpp:101-114 | moves ERDP past exactly one event, back to the segment's begin with the cycle bit flipped after the last TRB, the register's low bits untouched |
| `EventLoop.EventRing.HasFront` | kernel/usb/xhci/ring.hpp:88-90 | true if and only if an event waits |
| `EventLoop.EventRing.Front` | kernel/usb/xhci/ring.hpp:92-94 | the oldest waiting event |
| `EventLoop.EventRing.ProcessEvent` | kernel/usb/xhci/xhci.cpp:488-505 | handles the oldest event once, by the type in bits 10 to 15 of its last word, and pops it on every path, unknown types and failing handlers included, while the controller goes on writing |
| `EventLoop.RouteIsByType` | kernel/usb/xhci/xhci.cpp:488-505 | of any event whose fields fit, type 32 goes to the transfer handler, 34 to the port handler and 33 to the command handler, and every other value to none |
| `PortProtocol.StepKeepsInv` | kernel/usb/xhci/xhci.cpp:88-281 | every event keeps lock, phases, slots and outstanding commands consistent, and a command completion is rejected if and only if it is that of an Address Device command with slot id 0 |
| `PortProtocol.CompletionOfAddress` | kernel/usb/xhci/xhci.cpp:239-265 | the Address Device completion moves its own port on and the lock to the first waiting port, if that is connected, and changes nothing else; with slot id 0 it changes nothing and is rejected |
| `PortSteps.PhasesExactly` | kernel/usb/xhci/xhci.cpp:88-281 | in every state the invariant allows and for every event: what each port's next phase is. A port leaves kResettingPort if and only if an event for it reports it enabled and its reset done; likewise for each other phase |
| `PortSteps.CommandsExactly` | kernel/usb/xhci/xhci.cpp:112-281 | which command each event appends: Enable Slot if and only if a port's reset is reported done, Address Device for the slot that yielded, Configure Endpoint when a device is initialised; none otherwise |
| `PortSteps.OtherPortEvents` | kernel/usb/xhci/xhci.cpp:194-207 | a port event that neither connects a new port nor reports a reset done changes nothing; it is kInvalidPhase if and only if the port is neither unconnected nor being reset |
| `PortSteps.TransferExactly` | kernel/usb/xhci/xhci.cpp:209-225 | errors of a transfer event and what it does to the device of its slot: slots above 8 or without a device, failed transfers, and speeds outside 1..5 |
| `PortSteps.IssuerTypes` | kernel/usb/xhci/xhci.cpp:227-281 | the handler of command completions knows issuers 9, 11 and 12; any other is kInvalidPhase and changes nothing |
| `PortTheorems.RunFromStart` | kernel/usb/xhci/xhci.cpp:22-281 | in every run from the start a port is between reset and address assignment if and only if `addressing_port` names it; live slots and ports match one to one, in the input context and in the device context the handlers read; at most nine commands are outstanding; a port's phase changes at most 7 times and its configuration completes at most once |
| `PortSteps.OneEnableSlotEach` | kernel/usb/xhci/xhci.cpp:112-129 | in every run from the start there are as many Enable Slot commands as ports past their reset, and the reset of each was reported done on the way |
| `PortSteps.ResetWasReported` | kernel/usb/xhci/xhci.cpp:112-129 | in any run, a port that comes past its reset had it reported done |
| `PortTheorems.BrokenThenRestored` | kernel/usb/xhci/xhci.cpp:254-265 | inside the Address Device completion, once the lock is handed on, the exclusion does not hold, after it it does |
| `PortTheorems.ActsOnOwnPort` | kernel/usb/xhci/xhci.cpp:209-281 | a handler that looks up the port of a slot acts on the port addressed with that slot, and on the next in line at a hand-off |
| `PortTheorems.PhasesAdvance` | kernel/usb/xhci/xhci.cpp:22-31 | no event moves any port back |
| `PortTheorems.RunTheorem` | kernel/usb/xhci/xhci.cpp:88-281 | in every run a port's phase changes at most 7 times and its configuration completes at most once |
| `PortTheorems.AtMostNineOutstanding` | kernel/usb/xhci/xhci.cpp:112-164 | at most nine commands are ever outstanding |
| `PortQueue.HandOffExact` | kernel/usb/xhci/xhci.cpp:254-263 | while the queue is served, a step leaves a given port waiting with the lock free if and only if it is a hand-off that meets an unplugged first waiter and the port was waiting, plugged in or not |
| `PortQueue.StrandedExactly` | kernel/usb/xhci/xhci.cpp:88-110 | with a free lock a waiting port stays waiting and the lock free under every step but the first connection of a port not connected so far, and exactly such a step takes the lock again |
| `PortQueue.StrandedForever` | kernel/usb/xhci/xhci.cpp:194-207 | once no port is left that was never connected, the waiting ports wait in every continuation |
| `PortQueue.AbandonedForEver` | kernel/usb/xhci/xhci.cpp:254-263 | a run of three ports from the start: 1 is addressed, 2 is unplugged while it waits, and 3, plugged in, waits in every continuation |
| `PortQueue.AlwaysServed` | kernel/usb/xhci/xhci.cpp:88-110 | without a hand-off to an unplugged port no reachable state has a waiting port and a free lock |
| `PortQueue.NoStarvation` | kernel/usb/xhci/xhci.cpp:254-263 | while port q waits and no hand-off meets an unplugged first waiter, each hand-off uses up a lower-numbered port that has not had its turn, so there are at most q - 1 of them before q is reset |
| `PortQueue.AtMostEightAddressed` | kernel/usb/xhci/xhci.cpp:131-164 | no run addresses more than eight devices, one for each slot |
| `PortTurns.TurnEndsExactly` | kernel/usb/xhci/xhci.cpp:112-265 | in every reachable state the port that holds the lock can hand it on in some continuation if and only if a slot in 1..8 is free for it or it was addressed with one |
| `PortTurns.DoomedForEver` | kernel/usb/xhci/xhci.cpp:239-252 | otherwise it keeps the lock in every continuation and gets no further than kAddressingDevice, and every waiting port goes on waiting |
| `PortTurns.NinthPortKeepsLock` | kernel/usb/xhci/xhci.cpp:131-164 | a run from the start in which eight ports are addressed and the ninth gets slot id 0, an Address Device command for it and its rejection; it then keeps the lock in every continuation |
| `CommandRing.CommandTheorem` | kernel/usb/xhci/xhci.cpp:227-281 | protocol and 32-entry command ring together, with no flow control assumed: at most nine outstanding, commands executed are those issued in order, and each completion reads the issuing command's type from ring memory and is accepted unless there was no slot |
| `CommandRing.CommandWord` | kernel/usb/xhci/trb.hpp:221-305 | each command in memory: 0x2400, or 0x2C00 or 0x3000 plus the slot id in bits 24 to 31, plus the cycle bit; words 0 to 2 are the input context pointer and 0, or all 0 |
| `CommandRing.NeverFull` | kernel/usb/xhci/xhci.hpp:32 | the flow control the command ring needs follows from the protocol |
| `CommandRing.IssuerIsTheCommand` | kernel/usb/xhci/xhci.cpp:228-228 | the type found at the event's TRB pointer is that of the command that completed |
| `CommandRing.NextKeepsInv` | kernel/usb/xhci/xhci.cpp:112-164 | every store, fetch, execution and handler keeps the product's invariant |
| `DriverLoop.LoopTheorem` | kernel/usb/xhci/xhci.cpp:488-505 | event ring, command ring and handlers in one system: in every run `ProcessEvent` handles completions in the order of their commands and after execution, each pointing to its command's TRB and accepted by its handler unless there was no slot, none lost; so the port protocol makes one of its runs, with exclusion and slots matching ports |
| `DriverLoop.RunRefines` | kernel/usb/xhci/xhci.cpp:194-281 | every run of that system is a run of the port protocol, whose assumptions on the order of completions are derived from the events written |
| `DriverLoop.SoftwareRefines` | kernel/usb/xhci/xhci.cpp:494-502 | what the dispatch does with the event in front, reading issuer type, slot id and port id from memory, is one step of the protocol that is enabled, or nothing for an unknown type |
| `DriverLoop.FrontCompletion` | kernel/usb/xhci/trb.hpp:394-422 | the pointer and slot id in the completion event in front are those of the oldest executed command not yet handled |
| `DriverLoop.DispatchByType` | kernel/usb/xhci/xhci.cpp:488-505 | what the driver does with an event, by the number in its type bits and with slot and port id from their bits: 32, 34, 33, or nothing |
| `DriverLoop.CompletionWords` | kernel/usb/xhci/trb.hpp:394-422 | a command completion event in memory: the pointer, code 1 in the top byte of word 2, type 33 and the slot id in the last word |
| `XhciDriver.Controller.ResetPort` | kernel/usb/xhci/xhci.cpp:88-110 | in place, as its step of the protocol, which `PhasesExactly` describes |
| `XhciDriver.Controller.EnableSlotFor` | kernel/usb/xhci/xhci.cpp:112-129 | in place, as its step of the protocol: on the report that port and reset are done, and only then (`PhasesExactly`, `CommandsExactly`) |
| `XhciDriver.Controller.AddressDeviceAt` | kernel/usb/xhci/xhci.cpp:131-164 | in place, as its step of the protocol, the device manager's array included |
| `XhciDriver.Controller.InitializeDevice` | kernel/usb/xhci/xhci.cpp:166-178 | in place, as its step of the protocol |
| `XhciDriver.Controller.CompleteConfiguration` | kernel/usb/xhci/xhci.cpp:180-192 | in place, as its step of the protocol |
| `XhciDriver.Controller.ConfigureEndpoints` | kernel/usb/xhci/xhci.cpp:423-486 | its effect on phases and commands; contexts and rings are the subject of `EndpointSetup` |
| `XhciDriver.Controller.ConfigurePort` | kernel/usb/xhci/xhci.cpp:416-421 | in place, as its step of the protocol |
| `XhciDriver.Controller.OnPortStatusChange` | kernel/usb/xhci/xhci.cpp:194-207 | in place, as its step of the protocol |
| `XhciDriver.Controller.OnTransferEvent` | kernel/usb/xhci/xhci.cpp:209-225 | in place, as its step of the protocol |
| `XhciDriver.Controller.HandOff` | kernel/usb/xhci/xhci.cpp:254-263 | the search loop finds the first waiting port |
| `XhciDriver.Controller.OnCommandCompletion` | kernel/usb/xhci/xhci.cpp:227-281 | in place, as its step of the protocol |
| `ArrayMaps.PutThenGet` | kernel/usb/arraymap.hpp:25-33 | after `Put` the key is present if and only if the table had room or knew it; a full table is left as it was; other keys are untouched |
| `ArrayMaps.DeleteThenGet` | kernel/usb/arraymap.hpp:35-42 | `Delete` frees one entry of its key and no other |
| `ArrayMaps.FullExactly` | kernel/usb/arraymap.hpp:25-33 | an entry is dropped exactly when all entries are in use |
| `ArrayMapClass.ArrayMap.Get` | kernel/usb/arraymap.hpp:16-23 | the scanning loop finds the first entry of the key |
| `ArrayMapClass.ArrayMap.Put` | kernel/usb/arraymap.hpp:25-33 | the scanning loop fills the first free entry or changes nothing |
| `ArrayMapClass.ArrayMap.Delete` | kernel/usb/arraymap.hpp:35-42 | the scanning loop frees the first entry of the key |
| `Transfers.EncodingFacts` | kernel/usb/xhci/device.cpp:10-28 | decoding TRBs gives back the setup packet and the buffer, and the length in its 17 bits |
| `Transfers.TransferWords` | kernel/usb/xhci/trb.hpp:30-162 | the last word of each of the four kinds of transfer TRB as one number |
| `ControlWords.RequestInMemory` | kernel/usb/xhci/device.cpp:107-199 | the two or three TRBs of a control request as the numbers in memory, by direction and whether there is a buffer: Setup Stage 0x30840, 0x20840 or 0x840, Data Stage 0xC20 with its direction bit, Status Stage with direction and interrupt bit, the trailing one included; wherever on the ring they lie |
| `ControlWords.ControlInMemory` | kernel/usb/xhci/device.cpp:107-199 | so `ControlIn` and `ControlOut` leave them on the ring of their endpoint |
| `ControlWords.ReportInMemory` | kernel/usb/xhci/device.cpp:201-223 | and an interrupt request: its buffer, its length in 17 bits, 0x424 |
| `ControlWords.RefusedExactly` | kernel/usb/xhci/device.cpp:107-150 | exactly when a control request is refused and with which error; nothing changes then |
| `Transfers.CompletionIsOwed` | kernel/usb/xhci/device.cpp:235-285 | the completion of any request in flight passes on exactly that request's setup packet, buffer and length minus residual |
| `Transfers.ControlKeepsInv` | kernel/usb/xhci/device.cpp:107-199 | with room on the ring and in the table, a new control request leaves every request in flight intact, the Link wrap included |
| `Transfers.InterruptKeepsInv` | kernel/usb/xhci/device.cpp:201-223 | likewise for an interrupt request |
| `Transfers.CompletionKeepsInv` | kernel/usb/xhci/device.cpp:253-262 | completing one request leaves all others completable |
| `Transfers.FailureKeepsInv` | kernel/usb/xhci/device.cpp:238-242 | so does a failure, although its table entry stays behind |
| `Transfers.DifferentPtrs` | kernel/usb/xhci/device.cpp:245-262 | requests in flight complete at different TRBs |
| `TransferRuns.DeliveryTheorem` | kernel/usb/xhci/device.cpp:107-285 | over any run of requests, completions and failures on any endpoints in any order, what is delivered is what is owed |
| `TransferRuns.LostExactlyWhenDropped` | kernel/usb/arraymap.hpp:25-33 | with a full table the completion is lost if and only if no stale entry for the same slot happens to be left |
| `StaleEntries.SixteenFailuresLoseTheNext` | kernel/usb/xhci/device.cpp:238-242 | on a new device sixteen failed requests without data, whatever they ask for, fill the table, and the completion of the next request, whatever it is, is rejected |
| `XhciDevice.Device.Control` | kernel/usb/xhci/device.cpp:107-199 | `ControlIn` and `ControlOut` in place |
| `XhciDevice.Device.InterruptIn` | kernel/usb/xhci/device.cpp:201-223 | in place |
| `XhciDevice.Device.OnTransferEventReceived` | kernel/usb/xhci/device.cpp:235-285 | in place, with the completion it passes on |
| `XhciDevice.Device.AllocTransferRing` | kernel/usb/xhci/device.cpp:97-105 | sets one ring to the start state of the ring protocol |
| `Descriptors.WalkAll` | kernel/usb/device.cpp:12-42 | on the serialisation of any well-formed list, `Next` yields the second to the last descriptor where each was written, then null |
| `Descriptors.Reader.Next` | kernel/usb/device.cpp:20-26 | on to the offset of the following descriptor, null after the last |
| `Descriptors.Reader.NextInterface` | kernel/usb/device.cpp:28-36 | skips exactly what is no interface descriptor |
| `Descriptors.InitializePhase2` | kernel/usb/device.cpp:202-246 | of the bytes: the first descriptor after the first one with type 4, class 3, subclass 1 and protocol 1 or 2 is selected, a keyboard for 1 and a mouse for 2, with its byte 2 and its byte 4 many next endpoint descriptors, field by field from their bytes; no driver if and only if there is none |
| `Descriptors.SelectOffers` | kernel/usb/device.cpp:44-75 | the function that the method is proved against says what the bytes offer |
| `Descriptors.OffersOne` | kernel/usb/device.cpp:202-246 | the bytes allow one selection only, so the method returns a given selection if and only if they offer it |
| `Descriptors.CollectEndpoints` | kernel/usb/device.cpp:221-233 | the inner loop takes the next endpoint descriptors, whatever lies between them |
| `Descriptors.ClassDriverOf` | kernel/usb/device.cpp:56-75 | a keyboard if and only if bytes 5, 6 and 7 are 3, 1 and 1, a mouse if and only if they are 3, 1 and 2 |
| `UsbLifetime.AssignFacts` | kernel/usb/device.cpp:221-229 | InitializePhase2 enters a driver for every endpoint it finds, and none for endpoint number 0 |
| `UsbLifetime.Phase3Facts` | kernel/usb/device.cpp:248-255 | InitializePhase3 leaves the driver with an interrupt-in endpoint of those found, one that has a driver |
| `UsbLifetime.InitCompleteKeepsInv` | kernel/usb/device.cpp:149-181 | initialisation never has more than one request in flight, and each phase meets the request it waits for |
| `UsbSteps.InitialisesExactly` | kernel/usb/device.cpp:149-255 | in every state and for whatever the device sent: which control completions advance the initialisation (request 6 with descriptor type 1, then 2 and a boot interface, then request 9), the one request each leads to, byte by byte, and the error of all others, which change nothing |
| `UsbSteps.ServesExactly` | kernel/usb/device.cpp:149-160 | in service a control completion reaches the driver if and only if it waits for that setup packet, and starts the reading if and only if it waits for its first |
| `UsbSteps.ReadsOnExactly` | kernel/usb/device.cpp:183-189 | a report is read on if and only if its endpoint number has the driver and the endpoint is an IN one; the errors otherwise |
| `UsbSteps.OneProtocolEach` | kernel/usb/device.cpp:138-147 | as many SetProtocol requests are sent as endpoint numbers have the driver, each a class request 0x21, 11, 0 to its interface |
| `UsbRuns.ServiceCompletes` | kernel/usb/classdriver/hid.cpp:44-70 | in service the first SetProtocol to complete starts the reports, each report asks for the next one, and nothing else changes what is in flight |
| `UsbRuns.StepKeepsInv` | kernel/usb/device.cpp:131-255 | every call of the port protocol and every transfer event keeps the invariant of the device's life |
| `UsbRuns.RingsNeverOverrun` | kernel/usb/device.cpp:138-147 | over whole lives, with transfers failing anywhere, the TRBs not known to be complete are at most 30 on EP0 and at most 1 on the interrupt-in ring, the setup-stage table is never full, and every request in flight is found by its completion |
| `UsbRings.RingsCarryTheDevice` | kernel/usb/xhci/device.cpp:107-223 | device, driver and controller together, with fetches between any two stores of a push and no flow control assumed: the controller stays on both rings and consumes exactly what is pushed to them, and between handlers the rings in memory are those the device sees |
| `UsbRings.NextKeepsInv` | kernel/usb/xhci/device.cpp:107-285 | every handler, store and fetch of that system keeps the ring protocol's invariant on both rings |
| `UsbRings.FinishIsPush` | kernel/usb/xhci/ring.cpp:39-54 | whatever is left to store of a push begun, once it is stored the ring is as an atomic push leaves it |
| `UsbBoot.InitializationSucceeds` | kernel/usb/device.cpp:131-255 | for all well-formed descriptors that offer a boot interface, three requests initialise the device: (0x80, 6, 0x100, 0, 256), (0x80, 6, 0x200, 0, 256) and (0, 9, the configuration's byte 5, 0, 0); the driver reads 8 bytes for a keyboard and 3 for a mouse |
| `UsbBoot.ReportsStart` | kernel/usb/classdriver/hid.cpp:29-58 | CompleteConfiguration puts SetProtocol (0x21, 11, 0, interface, 0) in flight, and its completion arms the interrupt-in endpoint with the driver's buffer and report size |
| `UsbBoot.FirstReportFromBytes` | kernel/usb/device.cpp:131-255 | one run from the bytes of the descriptors to the first report: 8 bytes if the first boot interface has protocol 1, 3 if it has protocol 2, from the last interrupt-in endpoint among its descriptors |
| `UsbDeviceClass.Device.StartInitialize` | kernel/usb/device.cpp:131-136 | in place, as its step of the device's life |
| `UsbDeviceClass.Device.OnControlCompleted` | kernel/usb/device.cpp:149-181 | in place, reading the descriptors from the buffer |
| `UsbDeviceClass.Device.InitializePhase2` | kernel/usb/device.cpp:202-246 | in place |
| `UsbDeviceClass.Device.InitializePhase3` | kernel/usb/device.cpp:248-255 | the loop over the endpoints, in place |
| `UsbDeviceClass.Device.OnInterruptCompleted` | kernel/usb/device.cpp:183-189 | in place |
| `UsbDeviceClass.Device.OnEndpointsConfigured` | kernel/usb/device.cpp:138-147 | the loop over the class drivers, in place |
| `UsbLifetime.SetEndpointsFacts` | kernel/usb/classdriver/hid.cpp:19-27 | after InitializePhase3's loop the driver has, for each direction, the last interrupt endpoint found, or what it had if there is none; nothing else of it changes |
| `DriverSystem.DriverTheorem` | kernel/usb/xhci/xhci.cpp:131-281 | in every run of ports, slots, commands and transfers of up to eight devices together, each call to a device (StartInitialize, ring allocation, OnEndpointsConfigured) comes when the device is ready for it, and all devices stay within the flow control of their rings |
| `DriverSystem.NextKeepsInv` | kernel/usb/xhci/xhci.cpp:131-281 | every step keeps each port's phase and its device's stage of life together |
| `WholeDriver.WholeTheorem` | kernel/usb/xhci/xhci.cpp:194-505 | everything together, completions of commands and of transfers coming through the event ring only: in every run each transfer event is found, from the words of the event, to be the answer to the oldest request of its ring, and delivers what that request is owed; command completions are handled as theirs; when no event waits all is handled; exclusion, slots, the command ring and the flow control of all devices' rings hold as in the parts |
| `WholeDriver.NextKeepsInv` | kernel/usb/xhci/xhci.cpp:194-505 | every step of that system keeps rings, protocol, devices and answers on their way together |
| `WholeDriver.FrontAnswers` | kernel/usb/xhci/device.cpp:235-262 | the transfer event in front carries the slot, the pointer, the residual length and the code of the oldest request answered and not handled |
| `Deliveries.DecodesBack` | kernel/usb/xhci/trb.hpp:358-392 | pointer, residual length, completion code, endpoint and slot id survive the event's encoding |
| `Deliveries.EventWords` | kernel/usb/xhci/trb.hpp:358-392 | a transfer event in memory as four numbers |
| `Deliveries.HandledQueues` | kernel/usb/xhci/device.cpp:235-285 | after an answer is handled, with whatever the handler asks for next, the answers left are for requests in flight and in the order of each ring |
| `DriverSystem.TransferView` | kernel/usb/xhci/xhci.cpp:209-225 | a transfer event touches no other slot, and configures endpoints exactly if the device is initialised, its port waits for that, and its speed is known |
| `EndpointSetup.Endpoints.ConfigureEndpoints` | kernel/usb/xhci/xhci.cpp:423-477 | add flag d is set if and only if d = 0 or some endpoint has index d; each context decodes to the base of its fresh ring of 32 TRBs, within 64 KiB, with cycle state 1; surviving rings overlap neither each other nor earlier blocks; of endpoints with one index the last counts |
| `EndpointSetup.ContextFromDescriptor` | kernel/usb/xhci/xhci.cpp:439-477 | the fields of an endpoint's context from the bytes of its descriptor: type by kind and direction, packet size, the index; and the interval, at full and low speed the longest power-of-two period within the descriptor's milliseconds |
| `EndpointSetup.PointerIsLossless` | kernel/usb/xhci/context.hpp:63-69 | the shifted dequeue pointer gives back the ring's address, whatever the cycle state |
| `EndpointSetup.Endpoints.SetUpControlPipe` | kernel/usb/xhci/xhci.cpp:145-156 | the context of EP0 decodes to the base of its ring with cycle state 1, its packet size is 512 for speed 4, 64 for 3 and 8 otherwise, and the flags of slot context and EP0 are set |
| `EndpointSetup.CommandRingStarts` | kernel/usb/xhci/xhci.cpp:12-20 | the command ring control register decodes to the base of the command ring and cycle state 1, where the ring protocol starts |
| `EndpointSetup.RingsAreTheDevices` | kernel/usb/xhci/xhci.cpp:464-477 | the rings set up for the endpoints are those the device's life starts from, each at its own 64-byte aligned base from the allocator |
| `EndpointSetup.SetBit` | kernel/usb/xhci/context.hpp:119-122 | `1u << dci` sets that flag and no other |
| `EndpointSetup.Endpoints.AllocTransferRing` | kernel/usb/xhci/device.cpp:97-105 | a 64-byte aligned ring above everything allocated before |
| `Allocator.BlocksTheorem` | kernel/usb/memory.cpp:22-38 | over any sequence of calls, failed ones included, the blocks lie in the pool, are pairwise disjoint, aligned, and cross no boundary they fit in |
| `Allocator.AllocFacts` | kernel/usb/memory.cpp:22-38 | one call: a block as asked for, or failure if and only if the rounded block does not fit |
| `Allocator.BumpFacts` | kernel/usb/memory.cpp:23-31 | still aligned after the jump to the next boundary |
| `Allocator.CeilRoundsUp` | kernel/usb/memory.cpp:6-9 | the mask computes the least multiple of a power of two from a value on |
| `Allocator.InPoolExactly` | kernel/usb/memory.cpp:33-38 | a block returned lies in the pool if and only if address plus size does not overflow 64 bits |
| `Allocator.OverflowIsGranted` | kernel/usb/memory.cpp:33-38 | a size for which it does overflow |
| `Allocator.FailureStarvesExactly` | kernel/usb/memory.cpp:26-36 | for all sizes, alignments and boundaries of both calls, a failed call makes a later one fail if and only if the later block fits behind the old allocation pointer and not behind the one the failure leaves |
| `Allocator.FailedPageStarves` | kernel/usb/memory.cpp:26-36 | a page refused near the end of the pool, and the 64-byte block that fails because of it |
| `Allocator.AllocExactly` | kernel/usb/memory.cpp:22-38 | the result and the new allocation pointer of one call, for all powers of two |
| `Allocator.Pool.AllocMem` | kernel/usb/memory.cpp:22-38 | in place, with the blocks handed out so far, sizes that overflow 64 bits included |
| `PciScan.Scanner.ScanAllBus` | kernel/pci.cpp:160-178 | for every configuration space, cyclic bridges included, the scan ends with the first 32 functions of the preorder in the table, and with kFull if and only if there are more |
| `PciScan.Scanner.ScanBus` | kernel/pci.cpp:82-93 | the devices of a bus in order, cut off by kFull |
| `PciScan.Scanner.ScanDevice` | kernel/pci.cpp:61-77 | function 0, then 1 to 7 of a multi-function device |
| `PciScan.Scanner.ScanFunction` | kernel/pci.cpp:39-56 | the function itself, then what is behind its bridge; 32 - num_device decreases |
| `PciScan.Scanner.AddDevice` | kernel/pci.cpp:24-32 | appends, or reports kFull and changes nothing |
| `PciScan.AddressesDiffer` | kernel/pci.cpp:6-19 | different registers have different CONFIG_ADDRESS values; `PciBytes` has the bit positions |
| `PciTree.CutIsInvisible` | kernel/pci.cpp:39-56 | the outcome does not depend on how deep a possibly infinite preorder is followed, from 32 bridges on |
| `PciTree.ListedOnce` | kernel/pci.cpp:160-166 | on a tree of buses, with a single-function host bridge, no function is listed twice |
| `PciTree.ListedExactly` | kernel/pci.cpp:39-178 | a function is in the preorder if and only if the scan comes to its bus, from one it starts with and through any bridges, and visits it there: function 0, or any present function of a multi-function device |
| `PciBytes.ListedByBytes` | kernel/pci.cpp:39-178 | on configuration space given byte by byte: a function is listed if and only if bytes 0 and 1 are not both 0xff, it is function 0 or bit 7 of function 0's byte 0x0e is set, and bridges (bytes 0x0b and 0x0a 6 and 4) lead to its bus by their bytes 0x19 from a bus the scan starts with |
| `PciBytes.EntriesByBytes` | kernel/pci.cpp:24-37 | each table entry is such a function, with its bytes 0x0e and 0x0b to 0x09 |
| `PciBytes.FunctionBytes` | kernel/pci.cpp:6-37 | the bytes behind each value that the scan reads through CONFIG_ADDRESS, with its bit positions |
| `PciTree.BusZeroIsMissed` | kernel/pci.cpp:169-176 | with a multi-function host bridge functions of bus 0 are listed if and only if there is a device on bus 0 and some bridge on or behind the buses 1 to 7 leads back to it |
| `PciTree.TableMissesBusZero` | kernel/pci.cpp:169-176 | if the scan does not come to bus 0, no table entry is of bus 0 |
| `PciTree.HostComesFirst` | kernel/pci.cpp:164-166 | with a single-function one the host bridge comes first |
| `ElfLoader.LoadIsExact` | MikanLoaderPkg/Main.c:187-201 | of disjoint segments memory holds the file bytes, then zeros, and is unchanged elsewhere; all of it within the pages allocated |
| `ElfImage.LoadsAsWritten` | MikanLoaderPkg/Main.c:187-201 | of a file written field by field, with disjoint segments: every PT_LOAD (1) segment ends up at p_vaddr, p_filesz bytes from p_offset, then zeros up to p_memsz |
| `ElfImage.ReadsAsWritten` | MikanLoaderPkg/elf.hpp:14-41 | the loader reads back the entry point and every program header that was written, the offsets being the sums of the field widths |
| `ElfLoader.RangeIsTight` | MikanLoaderPkg/Main.c:169-185 | first and last are the exact bounds of the segments that are loaded |
| `ElfLoader.PagesCover` | MikanLoaderPkg/Main.c:319-319 | the page count reaches the last address, one page less would not |
| `ElfLoader.EntryIsFound` | MikanLoaderPkg/Main.c:359-359 | the word at first + 24 is the file's word 24 bytes into the lowest segment, so e_entry if that segment starts with the header |
| `ElfLoader.NothingToLoad` | MikanLoaderPkg/Main.c:176-183 | without segments the subtraction wraps to one page at the very last address |
| `ElfLoader.CalcLoadAddressRange` | MikanLoaderPkg/Main.c:169-185 | the loop computes the range with 64-bit sums |
| `ElfLoader.CopyLoadSegments` | MikanLoaderPkg/Main.c:187-201 | each byte is what the last segment covering it says, also for overlapping segments |
| `Consoles.Console.PutString` | kernel/console.cpp:13-26 | after any calls the buffer holds the last 25 lines of all text so far, each cut to 79 characters and zero padded, and all 640 x 400 pixels are those of the buffer drawn from scratch |
| `ConsoleText.PixelFromText` | kernel/font.cpp:10-34 | the pixel at (x, y) in numbers: row y / 16 of the last 25 lines, column x / 8 of the first 79, bit 7 - x % 8 of font byte 16 c + y % 16 |
| `ConsoleText.LinesJoin` | kernel/console.cpp:13-26 | joining the lines with character 10 gives the text back, and no line has one |
| `Consoles.Console.Newline` | kernel/console.cpp:29-49 | the next row, or the rows moved up by one |
| `Consoles.Console.Scroll` | kernel/console.cpp:36-47 | clearing, moving and redrawing leave the pixels of the moved rows |
| `Consoles.Console.WriteAscii` | kernel/font.cpp:21-34 | draws exactly the lit pixels of a glyph, and nothing for a character outside the font |
| `Consoles.Console.WriteString` | kernel/font.cpp:36-40 | draws a row up to its first NUL |
| `ConsoleText.RowsAfterNewline` | kernel/console.cpp:29-49 | which rows a text shows after one more line |
| `ConsoleText.RowsAfterChar` | kernel/console.cpp:18-22 | which rows a text shows after one more character, dropped if the line is full |

## Left out

- UEFI calls, file reading, graphics output protocol and memory map dump of the boot loader: firmware input and output.
- `Controller::Initialize`, scratchpad buffers, ownership hand-over, halt, run and interrupt registers: they wait for hardware and compute nothing that others rely on.
- Doorbell writes: the controller model may fetch at any time, with or without a doorbell.
- Reordering of stores by compiler or processor: stores happen in program order, as the comment in `CopyToLast` asks.
- Failed command completions other than for want of a slot, disconnecting and reconnecting: the code has no path for them.
- `DeviceManager::FindByPort`, `FindByState`, `Remove`: not called by the modelled handlers; `LoadDCBAA`: the device context base address array, of which entry 0 has another meaning, is not part of the state; `FindBySlot` and `AllocDevice` are part of the port protocol.
- Malformed descriptors (zero length, truncated buffers, fewer endpoints than announced), for which the source follows wild or null pointers; the selection is then `NullRead`.
- More than 16 endpoint configurations, for which the source writes past its array.
- Keyboard and mouse report contents, `previous_buf_`, observers, and `num_configurations_`, which is stored and never read.
- Slot contexts beyond the port number (speed, route string, number of entries), and the reading of port speed registers.
- BARs, device ids and other configuration registers that the scan does not use.
- Logging, error names and line numbers, desktop drawing, mouse cursor, font compiler, libc stubs.
- Transfers.OnTransferEvent: TRB pointers are pairs of ring and slot, the rings lying in disjoint blocks (`Allocator.BlocksTheorem`, `EndpointSetup.Endpoints.ConfigureEndpoints`); a pointer outside all rings, which the source would follow, is answered with kNoCorrespondingSetupStage.
- DriverSystem.DriverTheorem: commands are a sequence there and transfer rings are those of the devices; the controller's fetches are added to the command ring in `CommandRing` and to transfer rings in `UsbRings`, each on its own. Events for slots without a device change nothing and are left to `PortProtocol`.
- Commands in `XhciDriver` are appended to a sequence; `CommandRing` has the ring itself.
- Consoles.Console.PutString: pixels outside the console's 640 x 400 area are not part of the model; the console writes none.
- ElfLoader.CopyLoadSegments: the file lies in memory of its own that no segment overlaps; segments with more file bytes than memory bytes, for which the remainder wraps, are excluded.
- Allocator.Pool.AllocMem: called with powers of two or zero as alignment and boundary, as all callers do.
- XhciDriver.Controller.EnableSlotFor: clearing the port reset change bit is a register write and not part of the state.
- XhciDriver.Controller.AddressDeviceAt: the input context and the EP0 ring are the subject of `EndpointSetup.Endpoints.SetUpControlPipe`.
- XhciDriver.Controller.InitializeDevice: the request that the device then issues is added by `DriverSystem`.
- XhciDriver.Controller.CompleteConfiguration: the calls of the device's drivers are added by `DriverSystem`.
- XhciDriver.Controller.OnTransferEvent: what the device makes of the event is a parameter, and is added by `DriverSystem`.
- XhciDriver.Controller.ConfigureEndpoints: contexts and rings are the subject of `EndpointSetup`.
- XhciDevice.Device.AllocTransferRing: the memory is a parameter; it comes from the allocator in `EndpointSetup`.
- EndpointSetup.Endpoints.AllocTransferRing: where the TRB buffer cannot be had the source ignores the error and hands on a ring without a buffer; here the call ends.
- EndpointSetup.Endpoints.ConfigureEndpoints: ends at a failed allocation, where the source goes on; the slot context and the command are not part of it.
- EndpointSetup.Endpoints.SetUpControlPipe: ends at a failed allocation, where the source goes on.
- EventLoop.EventRing.ProcessEvent: the handler's result is a parameter; what dispatch does to the driver is `DriverLoop.SoftwareRefines`.
- DriverLoop.LoopTheorem: what a device makes of a transfer event is arbitrary there; `WholeDriver` has the devices.
- WholeDriver.WholeTheorem: transfer rings are those of the devices; the controller's fetches from them are added by `UsbRings`. The endpoint in an event is that of the ring its TRB was taken from, and stands for the ring's block of memory.
