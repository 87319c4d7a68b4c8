/** The bump allocator of kernel/usb/memory.cpp: 64-bit pointers, rounding by bit masks, an
    allocation pointer that moves even when a call fails. */
module Allocator {
  import opened Options

  const POOL_SIZE := 0x1000 * 32
  const WORD := 0x1_0000_0000_0000_0000

  /** The largest power of two an `unsigned int` holds. */
  const MAX_POWER := 0x8000_0000

  /** Bitwise and. */
  function And(x: nat, y: nat): nat
    decreases x
  {
    if x == 0 || y == 0 then 0 else 2 * And(x / 2, y / 2) + (x % 2) * (y % 2)
  }

  /** Bitwise complement of a 64-bit word. */
  function Not(x: nat): nat
    requires x < WORD
  {
    WORD - 1 - x
  }

  predicate IsPowerOfTwo(a: nat) { a == 1 || (a > 1 && a % 2 == 0 && IsPowerOfTwo(a / 2)) }

  /** What a 64-bit register keeps of a sum. */
  function Wrap(x: nat): nat { x % WORD }

  /** `Ceil` of the source: 64-bit addition, then a mask. */
  function Ceil(value: nat, alignment: nat): nat
    requires 1 <= alignment <= MAX_POWER
  {
    And(Wrap(value + alignment - 1), Not(alignment - 1))
  }

  /** The allocation pointer after rounding, whether or not the call succeeds. */
  function Bump(ptr: nat, size: nat, alignment: nat, boundary: nat): nat
    requires alignment <= MAX_POWER && boundary <= MAX_POWER
  {
    var aligned := if alignment > 0 then Ceil(ptr, alignment) else ptr;
    if boundary > 0 && Ceil(aligned, boundary) < Wrap(aligned + size) then Ceil(aligned, boundary) else aligned
  }

  /** The new allocation pointer, and a block of this size at p unless it would leave the pool. */
  function Grant(base: nat, p: nat, size: nat): (nat, Option<nat>) {
    if Wrap(base + POOL_SIZE) < Wrap(p + size) then (p, None) else (Wrap(p + size), Some(p))
  }

  /** AllocMem. */
  function Alloc(base: nat, ptr: nat, size: nat, alignment: nat, boundary: nat): (nat, Option<nat>)
    requires alignment <= MAX_POWER && boundary <= MAX_POWER
  {
    Grant(base, Bump(ptr, size, alignment, boundary), size)
  }

  // ---- rounding

  function Pow2(n: nat): (r: nat)
    ensures r >= 1
  {
    if n == 0 then 1 else 2 * Pow2(n - 1)
  }

  lemma {:induction false} AndOnes(x: nat, n: nat)
    requires x < Pow2(n)
    ensures And(x, Pow2(n) - 1) == x
    decreases n
  {
    if n > 0 && x > 0 {
      AndOnes(x / 2, n - 1);
      assert (Pow2(n) - 1) / 2 == Pow2(n - 1) - 1;
    }
  }

  lemma DoubleRemainder(x: nat, h: nat)
    requires h > 0
    ensures x % (2 * h) == 2 * (x / 2 % h) + x % 2
  {
    var y := x / 2;
    var q, r := y / h, y % h;
    assert x == 2 * h * q + (2 * r + x % 2) by {
      assert y == h * q + r;
    }
    QuotientUnique(x, 2 * h, q, 2 * r + x % 2);
  }

  lemma Multiples(a: nat, d: int)
    requires a > 0
    ensures (d >= 1 ==> a * d >= a) && (d <= -1 ==> a * d + a <= 0)
  {
  }

  lemma QuotientUnique(x: nat, a: nat, q: nat, r: nat)
    requires a > 0 && r < a && x == a * q + r
    ensures x % a == r && x / a == q
  {
    Multiples(a, x / a - q);
    assert a * (x / a - q) == r - x % a;
  }

  lemma AndEven(x: nat, h: nat)
    ensures And(x, 2 * h) == 2 * And(x / 2, h)
  {
    assert 2 * h / 2 == h && 2 * h % 2 == 0;
  }

  /** Masking off the low bits of a word subtracts the remainder. */
  lemma {:induction false} MaskSubtracts(x: nat, a: nat, n: nat)
    requires IsPowerOfTwo(a) && a <= Pow2(n) && x < Pow2(n)
    ensures And(x, Pow2(n) - a) == x - x % a
    decreases n
  {
    hide And;
    if a == 1 {
      AndOnes(x, n);
    } else {
      MaskSubtracts(x / 2, a / 2, n - 1);
      DoubleRemainder(x, a / 2);
      AndEven(x, Pow2(n - 1) - a / 2);
    }
  }

  lemma {:induction false} Pow2Adds(m: nat, n: nat)
    ensures Pow2(m + n) == Pow2(m) * Pow2(n)
    decreases n
  {
    if n > 0 {
      Pow2Adds(m, n - 1);
      assert Pow2(m + n) == 2 * (Pow2(m) * Pow2(n - 1));
    }
  }

  lemma WordIsPow2(n: nat)
    requires n == 4
    ensures Pow2(16 * n) == WORD
  {
    assert Pow2(1) == 2 && Pow2(2) == 4;
    Pow2Adds(2, 2);
    hide Pow2;
    Pow2Adds(4, 4);
    Pow2Adds(8, 8);
    Pow2Adds(16, 16);
    Pow2Adds(32, 32);
  }

  lemma Unwrapped(x: nat)
    ensures x < WORD ==> Wrap(x) == x
    ensures Wrap(x) <= x && Wrap(x) < WORD
  {
  }

  lemma CeilIsMask(value: nat, a: nat, n: nat)
    requires IsPowerOfTwo(a) && 1 <= a <= MAX_POWER && value + a - 1 < WORD && Pow2(n) == WORD
    ensures Ceil(value, a) == value + a - 1 - (value + a - 1) % a
  {
    Unwrapped(value + a - 1);
    MaskSubtracts(value + a - 1, a, n);
    hide And, IsPowerOfTwo, Pow2, Wrap;
  }

  /** Short of overflow, `Ceil` is the least multiple of a power of two from a value on. */
  lemma CeilRoundsUp(value: nat, a: nat)
    requires IsPowerOfTwo(a) && 1 <= a <= MAX_POWER && value + a - 1 < WORD
    ensures Ceil(value, a) % a == 0 && value <= Ceil(value, a) < value + a
  {
    hide *;
    WordIsPow2(4);
    CeilIsMask(value, a, 16 * 4);
    var x := value + a - 1;
    QuotientUnique(x - x % a, a, x / a, 0);
  }

  lemma {:induction false} PowersDivide(a: nat, b: nat)
    requires IsPowerOfTwo(a) && IsPowerOfTwo(b) && a <= b
    ensures b % a == 0
  {
    if a > 1 {
      PowersDivide(a / 2, b / 2);
      DoubleRemainder(b, a / 2);
    }
  }

  lemma MultipleOfMultiple(x: nat, b: nat, a: nat)
    requires a > 0 && b > 0 && x % b == 0 && b % a == 0
    ensures x % a == 0
  {
    assert x == a * (b / a * (x / b)) by {
      assert x == b * (x / b) && b == a * (b / a);
    }
    QuotientUnique(x, a, b / a * (x / b), 0);
  }

  /** A multiple of a power of two is one of every smaller power of two. */
  lemma AlignedTwice(x: nat, b: nat, a: nat)
    requires IsPowerOfTwo(a) && IsPowerOfTwo(b) && a <= b && x % b == 0
    ensures x % a == 0
  {
    PowersDivide(a, b);
    MultipleOfMultiple(x, b, a);
  }

  lemma LeastMultiple(v: nat, c: nat, a: nat, t: nat)
    requires a > 0 && c % a == 0 && t % a == 0 && c < v + a && v <= t
    ensures c <= t
  {
    Multiples(a, c / a - t / a);
    assert a * (c / a - t / a) == c - t by {
      assert c == a * (c / a) && t == a * (t / a);
    }
  }

  // ---- where the allocation pointer can get to

  /** No rounding takes the allocation pointer past this multiple of every alignment. */
  function Top(base: nat): nat { (base + POOL_SIZE + MAX_POWER - 1) / MAX_POWER * MAX_POWER }

  /** The pool lies above address 0 and not within the last 2^31 bytes of the address space. */
  predicate Placed(base: nat) { base > 0 && base % 64 == 0 && Top(base) + MAX_POWER <= WORD }

  predicate PowerOrZero(a: nat) { a == 0 || (IsPowerOfTwo(a) && a <= MAX_POWER) }

  lemma TopFacts(base: nat)
    ensures base + POOL_SIZE <= Top(base) && Top(base) % MAX_POWER == 0 && IsPowerOfTwo(MAX_POWER)
  {
    MaxIsPower();
    var x := base + POOL_SIZE + MAX_POWER - 1;
    QuotientUnique(Top(base), MAX_POWER, x / MAX_POWER, 0);
    hide IsPowerOfTwo;
  }

  lemma MaxIsPower()
    ensures IsPowerOfTwo(MAX_POWER)
  {
    assert IsPowerOfTwo(0x80);
    assert IsPowerOfTwo(0x8000);
    assert IsPowerOfTwo(0x80_0000);
  }

  lemma CeilBelowTop(base: nat, v: nat, a: nat)
    requires Placed(base) && v <= Top(base) && IsPowerOfTwo(a) && a <= MAX_POWER
    ensures 1 <= a && Ceil(v, a) % a == 0 && v <= Ceil(v, a) <= Top(base) && Ceil(v, a) < v + a
  {
    TopFacts(base);
    CeilRoundsUp(v, a);
    AlignedTwice(Top(base), MAX_POWER, a);
    hide Ceil, Top, IsPowerOfTwo;
    LeastMultiple(v, Ceil(v, a), a, Top(base));
  }

  /** Does a block cross a multiple of the boundary? */
  predicate Crosses(p: nat, size: nat, boundary: nat)
    requires boundary > 0
  {
    size > 0 && p / boundary != (p + size - 1) / boundary
  }

  /** A block that starts on a boundary, or ends before the next one, does not cross it. */
  lemma StaysWithin(p: nat, size: nat, boundary: nat, c: nat)
    requires boundary > 0 && c % boundary == 0 && p <= c < p + boundary && size <= boundary
    requires p == c || p + size <= c
    ensures !Crosses(p, size, boundary)
  {
    if size > 0 {
      var k := c / boundary;
      assert c == boundary * k;
      if p == c {
        QuotientUnique(p, boundary, k, 0);
        QuotientUnique(p + size - 1, boundary, k, size - 1);
      } else {
        assert boundary * (k - 1) == c - boundary;
        assert k >= 1;
        QuotientUnique(p, boundary, k - 1, p - (c - boundary));
        QuotientUnique(p + size - 1, boundary, k - 1, p + size - 1 - (c - boundary));
      }
    }
  }

  /** Rounding stays below the top, whatever the size. */
  lemma BumpBelowTop(base: nat, ptr: nat, size: nat, alignment: nat, boundary: nat)
    requires Placed(base) && ptr <= Top(base) && PowerOrZero(alignment) && PowerOrZero(boundary)
    ensures ptr <= Bump(ptr, size, alignment, boundary) <= Top(base)
  {
    hide Ceil, Top, IsPowerOfTwo, And, Wrap;
    var aligned := if alignment > 0 then Ceil(ptr, alignment) else ptr;
    if alignment > 0 {
      CeilBelowTop(base, ptr, alignment);
    }
    if boundary > 0 {
      CeilBelowTop(base, aligned, boundary);
    }
  }

  /** The rounded pointer is aligned, also after the jump to the next boundary, and a block of up to
      the boundary's size at it crosses no boundary. */
  lemma BumpFacts(base: nat, ptr: nat, size: nat, alignment: nat, boundary: nat)
    requires Placed(base) && ptr <= Top(base) && PowerOrZero(alignment) && PowerOrZero(boundary)
    requires Bump(ptr, size, alignment, boundary) + size < WORD
    ensures var p := Bump(ptr, size, alignment, boundary);
      && ptr <= p <= Top(base)
      && (alignment > 0 ==> p % alignment == 0)
      && (boundary > 0 && size <= boundary ==> !Crosses(p, size, boundary))
  {
    hide Ceil, Top, IsPowerOfTwo, Crosses, And, Wrap;
    var aligned := if alignment > 0 then Ceil(ptr, alignment) else ptr;
    if alignment > 0 {
      CeilBelowTop(base, ptr, alignment);
    }
    if boundary > 0 {
      CeilBelowTop(base, aligned, boundary);
      var next := Ceil(aligned, boundary);
      Unwrapped(aligned + size);
      if alignment > 0 {
        if alignment <= boundary {
          AlignedTwice(next, boundary, alignment);
        } else {
          AlignedTwice(aligned, alignment, boundary);
          LeastMultiple(aligned, next, boundary, aligned);
        }
      }
      if size <= boundary {
        StaysWithin(if next < aligned + size then next else aligned, size, boundary, next);
      }
    }
  }

  predicate InPool(base: nat, p: nat, size: nat) { base <= p && p + size <= base + POOL_SIZE }

  lemma GrantFacts(base: nat, p: nat, size: nat)
    requires base + POOL_SIZE < WORD && p + size < WORD
    ensures Grant(base, p, size) == if base + POOL_SIZE < p + size then (p, None) else (p + size, Some(p))
  {
    Unwrapped(base + POOL_SIZE);
    Unwrapped(p + size);
    hide Wrap;
  }

  /** One call whose size does not overflow at the rounded pointer: a block in the pool from the old
      allocation pointer on, aligned and not crossing its boundary, or a failure exactly if there is no
      room for it. */
  lemma AllocExactly(base: nat, ptr: nat, size: nat, alignment: nat, boundary: nat)
    requires Placed(base) && base <= ptr <= Top(base) && PowerOrZero(alignment) && PowerOrZero(boundary)
    requires Bump(ptr, size, alignment, boundary) + size < WORD
    ensures var (next, r) := Alloc(base, ptr, size, alignment, boundary);
      && ptr <= next <= Top(base)
      && next == Bump(ptr, size, alignment, boundary) + (if r.Some? then size else 0)
      && (r.None? <==> base + POOL_SIZE < Bump(ptr, size, alignment, boundary) + size)
      && (r.Some? ==>
            && InPool(base, r.value, size) && ptr <= r.value && r.value + size == next
            && (alignment > 0 ==> r.value % alignment == 0)
            && (boundary > 0 && size <= boundary ==> !Crosses(r.value, size, boundary)))
  {
    TopFacts(base);
    BumpFacts(base, ptr, size, alignment, boundary);
    hide Bump, Top, IsPowerOfTwo, Crosses, Grant, PowerOrZero;
    GrantFacts(base, Bump(ptr, size, alignment, boundary), size);
  }

  /** The same for a size that overflows nowhere. */
  lemma AllocFacts(base: nat, ptr: nat, size: nat, alignment: nat, boundary: nat)
    requires Placed(base) && base <= ptr <= Top(base) && PowerOrZero(alignment) && PowerOrZero(boundary)
    requires Top(base) + size < WORD
    ensures var (next, r) := Alloc(base, ptr, size, alignment, boundary);
      && ptr <= next <= Top(base)
      && next == Bump(ptr, size, alignment, boundary) + (if r.Some? then size else 0)
      && (r.None? <==> base + POOL_SIZE < Bump(ptr, size, alignment, boundary) + size)
      && (r.Some? ==>
            && InPool(base, r.value, size) && ptr <= r.value && r.value + size == next
            && (alignment > 0 ==> r.value % alignment == 0)
            && (boundary > 0 && size <= boundary ==> !Crosses(r.value, size, boundary)))
  {
    BumpBelowTop(base, ptr, size, alignment, boundary);
    AllocExactly(base, ptr, size, alignment, boundary);
    hide *;
  }

  /** With any size at all, a block that is returned lies in the pool exactly if the 64-bit sum of
      its rounded address and its size does not overflow. */
  lemma InPoolExactly(base: nat, ptr: nat, size: nat, alignment: nat, boundary: nat)
    requires Placed(base) && base <= ptr <= Top(base) && PowerOrZero(alignment) && PowerOrZero(boundary)
    requires size < WORD && Alloc(base, ptr, size, alignment, boundary).1.Some?
    ensures InPool(base, Alloc(base, ptr, size, alignment, boundary).1.value, size)
            <==> Bump(ptr, size, alignment, boundary) + size < WORD
  {
    TopFacts(base);
    var aligned := if alignment > 0 then Ceil(ptr, alignment) else ptr;
    if alignment > 0 {
      CeilBelowTop(base, ptr, alignment);
    }
    if boundary > 0 {
      CeilBelowTop(base, aligned, boundary);
    }
    hide Ceil, Top, IsPowerOfTwo, And;
    var p := Bump(ptr, size, alignment, boundary);
    Unwrapped(base + POOL_SIZE);
    Unwrapped(p + size);
  }

  /** An overflowing size is granted, far outside the pool. */
  lemma OverflowIsGranted()
    ensures Placed(0x10_0000)
    ensures var size := WORD - 0x10_0000;
      Alloc(0x10_0000, 0x10_0000, size, 0, 0).1 == Some(0x10_0000) && !InPool(0x10_0000, 0x10_0000, size)
  {
    assert Top(0x10_0000) == MAX_POWER;
  }

  // ---- any sequence of calls

  datatype Call = Call(size: nat, alignment: nat, boundary: nat)

  datatype Block = Block(p: nat, call: Call)

  predicate Callable(base: nat, c: Call) {
    PowerOrZero(c.alignment) && PowerOrZero(c.boundary) && Top(base) + c.size < WORD
  }

  /** The blocks a sequence of calls returns, in order. */
  function Blocks(base: nat, ptr: nat, calls: seq<Call>): seq<Block>
    requires forall i | 0 <= i < |calls| :: Callable(base, calls[i])
    decreases |calls|
  {
    if calls == [] then []
    else
      var c := calls[0];
      assert Callable(base, c);
      var (next, r) := Alloc(base, ptr, c.size, c.alignment, c.boundary);
      (if r.Some? then [Block(r.value, c)] else []) + Blocks(base, next, calls[1..])
  }

  predicate BlockOk(base: nat, b: Block) {
    && InPool(base, b.p, b.call.size)
    && (b.call.alignment > 0 ==> b.p % b.call.alignment == 0)
    && (b.call.boundary > 0 && b.call.size <= b.call.boundary ==> !Crosses(b.p, b.call.size, b.call.boundary))
  }

  /** Later blocks lie after earlier ones, so all are disjoint. */
  predicate Disjoint(blocks: seq<Block>) {
    forall i, j | 0 <= i < j < |blocks| :: blocks[i].p + blocks[i].call.size <= blocks[j].p
  }

  /** Main theorem: over any sequence of calls, failed ones included, the returned blocks lie in the
      pool, are pairwise disjoint, aligned, and cross no boundary they fit in. */
  lemma {:induction false} BlocksTheorem(base: nat, ptr: nat, calls: seq<Call>)
    requires Placed(base) && base <= ptr <= Top(base)
    requires forall i | 0 <= i < |calls| :: Callable(base, calls[i])
    ensures var blocks := Blocks(base, ptr, calls);
      && Disjoint(blocks)
      && forall i | 0 <= i < |blocks| :: ptr <= blocks[i].p && BlockOk(base, blocks[i])
    decreases |calls|
  {
    hide Alloc, Bump, Top, IsPowerOfTwo, Crosses, InPool, Placed;
    if calls != [] {
      var c := calls[0];
      AllocFacts(base, ptr, c.size, c.alignment, c.boundary);
      BlocksTheorem(base, Alloc(base, ptr, c.size, c.alignment, c.boundary).0, calls[1..]);
    }
  }

  /** What a failed call costs: exactly when a later call, for any size, alignment and boundary, would
      have been granted without the failed one and is refused after it. */
  lemma FailureStarvesExactly(base: nat, ptr: nat, failed: Call, later: Call)
    requires Placed(base) && base <= ptr <= Top(base) && Callable(base, failed) && Callable(base, later)
    requires Alloc(base, ptr, failed.size, failed.alignment, failed.boundary).1.None?
    ensures var next := Alloc(base, ptr, failed.size, failed.alignment, failed.boundary).0;
      && next == Bump(ptr, failed.size, failed.alignment, failed.boundary)
      && (Granted(base, ptr, later) && !Granted(base, next, later) <==>
            Bump(ptr, later.size, later.alignment, later.boundary) + later.size <= base + POOL_SIZE
            < Bump(next, later.size, later.alignment, later.boundary) + later.size)
  {
    AllocFacts(base, ptr, failed.size, failed.alignment, failed.boundary);
    var next := Alloc(base, ptr, failed.size, failed.alignment, failed.boundary).0;
    AllocFacts(base, ptr, later.size, later.alignment, later.boundary);
    AllocFacts(base, next, later.size, later.alignment, later.boundary);
    hide Alloc, Bump, Top, Placed, PowerOrZero, Crosses, InPool;
  }

  /** Does a call succeed at this allocation pointer? */
  predicate Granted(base: nat, ptr: nat, c: Call)
    requires c.alignment <= MAX_POWER && c.boundary <= MAX_POWER
  {
    Alloc(base, ptr, c.size, c.alignment, c.boundary).1.Some?
  }

  const POOL := 0x10_0000
  const FULL := Call(0x1_F040, 64, 0)
  const PAGE := Call(0x1000, 0x1000, 0x1000)
  const SMALL := Call(64, 64, 0x1000)

  /** An instance, with calls of the shapes the driver makes: after one block of 0x1_F040 bytes, a page
      that does not fit any more takes the last 0xFC0 bytes with it. */
  lemma FailedPageStarves()
    ensures Placed(POOL) && Callable(POOL, FULL) && Callable(POOL, PAGE) && Callable(POOL, SMALL)
    ensures Alloc(POOL, POOL, FULL.size, FULL.alignment, FULL.boundary) == (0x11_F040, Some(POOL))
    ensures Alloc(POOL, 0x11_F040, PAGE.size, PAGE.alignment, PAGE.boundary) == (0x12_0000, None)
    ensures Granted(POOL, 0x11_F040, SMALL) && !Granted(POOL, 0x12_0000, SMALL)
  {
    hide *;
    InstanceIsCallable();
    InstanceIsGranted();
  }

  lemma InstanceIsCallable()
    ensures Placed(POOL) && Callable(POOL, FULL) && Callable(POOL, PAGE) && Callable(POOL, SMALL)
    ensures IsPowerOfTwo(64) && IsPowerOfTwo(0x1000)
  {
    assert IsPowerOfTwo(0x80);
    hide IsPowerOfTwo;
  }

  lemma InstanceIsGranted()
    ensures Alloc(POOL, POOL, FULL.size, FULL.alignment, FULL.boundary) == (0x11_F040, Some(POOL))
    ensures Alloc(POOL, 0x11_F040, PAGE.size, PAGE.alignment, PAGE.boundary) == (0x12_0000, None)
    ensures Granted(POOL, 0x11_F040, SMALL) && !Granted(POOL, 0x12_0000, SMALL)
  {
    InstanceIsCallable();
    hide Bump, IsPowerOfTwo, Grant, PowerOrZero, Top, Placed;
    BumpAt(POOL, 0x1_F040, 64, 0, POOL, POOL);
    BumpAt(0x11_F040, 0x1000, 0x1000, 0x1000, 0x12_0000, 0x12_0000);
    BumpAt(0x11_F040, 64, 64, 0x1000, 0x11_F040, 0x12_0000);
    BumpAt(0x12_0000, 64, 64, 0x1000, 0x12_0000, 0x12_0000);
    GrantFacts(POOL, POOL, 0x1_F040);
    GrantFacts(POOL, 0x12_0000, 0x1000);
    GrantFacts(POOL, 0x11_F040, 64);
    GrantFacts(POOL, 0x12_0000, 64);
  }

  /** The rounded pointer, from the aligned one and the next boundary. */
  lemma BumpAt(ptr: nat, size: nat, alignment: nat, boundary: nat, aligned: nat, next: nat)
    requires IsPowerOfTwo(alignment) && 1 <= alignment <= MAX_POWER
             && (boundary == 0 || (IsPowerOfTwo(boundary) && boundary <= MAX_POWER))
    requires ptr + alignment <= WORD && aligned % alignment == 0 && ptr <= aligned < ptr + alignment
    requires boundary > 0 ==> aligned + boundary <= WORD && next % boundary == 0 && aligned <= next < aligned + boundary
    requires aligned + size < WORD
    ensures Bump(ptr, size, alignment, boundary) == if boundary > 0 && next < aligned + size then next else aligned
  {
    CeilAt(ptr, alignment, aligned);
    if boundary > 0 {
      CeilAt(aligned, boundary, next);
    }
    Unwrapped(aligned + size);
    hide Ceil, Wrap, IsPowerOfTwo;
  }

  lemma CeilAt(value: nat, a: nat, r: nat)
    requires IsPowerOfTwo(a) && 1 <= a <= MAX_POWER && value + a - 1 < WORD
    requires r % a == 0 && value <= r < value + a
    ensures Ceil(value, a) == r
  {
    CeilRoundsUp(value, a);
    LeastMultiple(value, Ceil(value, a), a, r);
    LeastMultiple(value, r, a, Ceil(value, a));
    hide *;
  }

  /** The blocks handed out so far, all below the allocation pointer. */
  predicate Below(base: nat, blocks: seq<Block>, ptr: nat) {
    Disjoint(blocks)
    && forall i | 0 <= i < |blocks| :: BlockOk(base, blocks[i]) && blocks[i].p + blocks[i].call.size <= ptr
  }

  lemma OneMoreBlock(base: nat, blocks: seq<Block>, ptr: nat, c: Call)
    requires Placed(base) && base <= ptr <= Top(base) && Below(base, blocks, ptr)
    requires PowerOrZero(c.alignment) && PowerOrZero(c.boundary)
    requires Bump(ptr, c.size, c.alignment, c.boundary) + c.size < WORD
    ensures var (next, r) := Alloc(base, ptr, c.size, c.alignment, c.boundary);
      base <= next <= Top(base) && Below(base, if r.Some? then blocks + [Block(r.value, c)] else blocks, next)
  {
    AllocExactly(base, ptr, c.size, c.alignment, c.boundary);
    hide Alloc, Bump, Top, Placed, PowerOrZero, Crosses, InPool;
  }

  lemma OneMoreIfNoOverflow(base: nat, blocks: seq<Block>, ptr: nat, c: Call)
    requires Placed(base) && base <= ptr <= Top(base) && Below(base, blocks, ptr)
    requires PowerOrZero(c.alignment) && PowerOrZero(c.boundary)
    ensures var (next, r) := Alloc(base, ptr, c.size, c.alignment, c.boundary);
      Bump(ptr, c.size, c.alignment, c.boundary) + c.size < WORD ==>
        base <= next <= Top(base) && Below(base, if r.Some? then blocks + [Block(r.value, c)] else blocks, next)
  {
    if Bump(ptr, c.size, c.alignment, c.boundary) + c.size < WORD {
      OneMoreBlock(base, blocks, ptr, c);
    }
    hide Alloc, Bump, Top, Placed, PowerOrZero, Below;
  }

  /** The allocator itself, with its global pointer and the blocks handed out so far. */
  class Pool {
    const base: nat
    var allocPtr: nat

    ghost var blocks: seq<Block>

    ghost predicate Valid()
      reads this
    {
      Placed(base) && base <= allocPtr <= Top(base) && Below(base, blocks, allocPtr)
    }

    constructor (memoryPool: nat)
      requires Placed(memoryPool)
      ensures Valid() && base == memoryPool && allocPtr == memoryPool && blocks == []
    {
      base, allocPtr, blocks := memoryPool, memoryPool, [];
      TopFacts(memoryPool);
    }

    /** Whatever the size, the call does what `Alloc` says; if the size does not overflow at the rounded
        pointer, the new block is disjoint from all earlier ones and as asked for. */
    method AllocMem(size: nat, alignment: nat, boundary: nat) returns (p: Option<nat>)
      requires Valid() && PowerOrZero(alignment) && PowerOrZero(boundary) && size < WORD
      modifies this
      ensures (allocPtr, p) == Alloc(base, old(allocPtr), size, alignment, boundary)
      ensures blocks == if p.Some? then old(blocks) + [Block(p.value, Call(size, alignment, boundary))] else old(blocks)
      ensures Bump(old(allocPtr), size, alignment, boundary) + size < WORD ==> Valid()
    {
      ghost var c := Call(size, alignment, boundary);
      OneMoreIfNoOverflow(base, blocks, allocPtr, c);
      RoundUp(size, alignment, boundary);
      if Wrap(base + POOL_SIZE) < Wrap(allocPtr + size) {
        return None;
      }
      p := Some(allocPtr);
      allocPtr := Wrap(allocPtr + size);
      blocks := blocks + [Block(p.value, c)];
    }

    /** The rounding that AllocMem starts with; it stays even if there is no room then. */
    method RoundUp(size: nat, alignment: nat, boundary: nat)
      requires alignment <= MAX_POWER && boundary <= MAX_POWER
      modifies this`allocPtr
      ensures allocPtr == Bump(old(allocPtr), size, alignment, boundary)
    {
      if alignment > 0 {
        allocPtr := Ceil(allocPtr, alignment);
      }
      if boundary > 0 {
        var nextBoundary := Ceil(allocPtr, boundary);
        if nextBoundary < Wrap(allocPtr + size) {
          allocPtr := nextBoundary;
        }
      }
    }
  }
}
