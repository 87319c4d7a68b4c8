/** Transfer Request Blocks: four 32-bit words; bit 0 of the last word is the cycle bit. */
module Trbs {

  type word = x: nat | x < 0x1_0000_0000
  type addr = x: nat | x < 0x1_0000_0000_0000_0000

  /** The last word of a TRB above its cycle bit: `flags` is bits 1 to 9, `ty` the trb_type in
      bits 10 to 15, and `high` bits 16 to 31. */
  datatype Control = Control(flags: nat, ty: nat, high: nat) {

    /** The bit fields fit their widths. */
    predicate Fits() { flags < 0x200 && ty < 0x40 && high < 0x1_0000 }
  }

  /** A TRB as it lies in memory. The last word is kept as its cycle bit and its other bits, which
      are always stored together in one 32-bit store. */
  datatype Trb = Trb(w0: word, w1: word, w2: word, ctl: Control, cycle: bool) {

    /** The last word as one 32-bit number. */
    function LastWord(): word
      requires ctl.Fits()
    {
      (if cycle then 1 else 0) + 2 * ctl.flags + 0x400 * ctl.ty + 0x1_0000 * ctl.high
    }

    /** toggle_cycle of a Link TRB: bit 1 of the last word. */
    predicate ToggleCycle() { ctl.flags % 2 == 1 }

    /** The 64-bit pointer in words 0 and 1 with its low four bits dropped. */
    function Pointer16(): addr { w1 * 0x1_0000_0000 + (w0 - w0 % 16) }

    /** This TRB after the store of word i of `t`. */
    function Store(i: nat, t: Trb): Trb
      requires i < 4
    {
      if i == 0 then this.(w0 := t.w0)
      else if i == 1 then this.(w1 := t.w1)
      else if i == 2 then this.(w2 := t.w2)
      else this.(ctl := t.ctl, cycle := t.cycle)
    }
  }

  const BLANK := Trb(0, 0, 0, Control(0, 0, 0), false)

  const NORMAL := 1
  const SETUP_STAGE := 2
  const DATA_STAGE := 3
  const STATUS_STAGE := 4
  const LINK := 6
  const ENABLE_SLOT := 9
  const ADDRESS_DEVICE := 11
  const CONFIGURE_ENDPOINT := 12
  const TRANSFER_EVENT := 32
  const COMMAND_COMPLETION_EVENT := 33
  const PORT_STATUS_CHANGE_EVENT := 34

  /** The caller's TRB with the ring's cycle bit in place of its own. */
  function Stamp(t: Trb, cycle: bool): Trb { t.(cycle := cycle) }

  /** What producer and consumer exchange: the TRB without its cycle bit. */
  function Payload(t: Trb): Trb { t.(cycle := false) }

  function Low(a: addr): word { a % 0x1_0000_0000 }

  function High(a: addr): word { a / 0x1_0000_0000 }

  /** A Link TRB to `base` with toggle_cycle set; the pointer field holds bits 4 to 63. */
  function LinkTo(base: addr): Trb {
    Trb(Low(base) - Low(base) % 16, High(base), 0, Control(1, LINK, 0), false)
  }

  /** A ring base survives the truncated pointer field of a Link TRB iff it is 16-byte aligned. */
  lemma LinkFacts(base: addr)
    ensures LinkTo(base).ctl.ty == LINK && LinkTo(base).ToggleCycle()
    ensures LinkTo(base).Pointer16() == base <==> base % 16 == 0
  {
    var lo: int, hi: int := Low(base), High(base);
    assert base == 16 * (0x1000_0000 * hi) + lo;
    assert base % 16 == lo % 16;
  }

  /** `(data[3] & 0xfffffffe) | cycle` replaces bit 0 of the last word and no other bit. */
  lemma StampFacts(t: Trb, c: bool)
    requires t.ctl.Fits()
    ensures Stamp(t, c).ctl.Fits()
    ensures Stamp(t, c).LastWord() == t.LastWord() / 2 * 2 + (if c then 1 else 0)
  {
  }
}
