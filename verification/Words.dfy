/** Machine words as the memory manager sees them: 64-bit page-table entries
    split into their three hardware fields, and page arithmetic on addresses. */
module Words {

  datatype Option<+T> = None | Some(value: T)

  const PAGE_SIZE: nat := 4096
  const USIZE: nat := 0x1_0000_0000_0000_0000 // 2^64
  const FRAMES: nat := 0x100_0000_0000 // 2^40, what ADDR_MASK leaves room for
  const PAGES: nat := 0x10_0000_0000 // 2^36 pages of a 48-bit address space
  const USER_PAGES: nat := 0x8_0000_0000 // 2^35 pages of the lower half

  type Usize = x: nat | x < USIZE
  type FrameNo = x: nat | x < FRAMES
  type LowBits = x: nat | x < 512
  type HighBits = x: nat | x < 2048

  /** A `u64` entry: bits 0-2 by name, flag bits 3-11, the page frame in bits
      12-51 (the bits of `ADDR_MASK`), bits 52-62, and bit 63 (no-execute).
      `PageFlags` is the same word. */
  datatype Word = Word(
    present: bool, writable: bool, user: bool, low: LowBits, frame: FrameNo, high: HighBits, nx: bool)

  const ZERO: Word := Word(false, false, false, 0, 0, 0, false)

  /** An or of the named `PageFlags` constants, PRESENT among them. */
  function Flags(writable: bool, user: bool, nx: bool): Word {
    Word(true, writable, user, 0, 0, 0, nx)
  }

  /** Bitwise or on unbounded naturals. */
  function Or(a: nat, b: nat): nat
    decreases a + b
  {
    if a == 0 && b == 0 then 0
    else 2 * Or(a / 2, b / 2) + (if a % 2 == 1 || b % 2 == 1 then 1 else 0)
  }

  function Pow2(n: nat): nat { if n == 0 then 1 else 2 * Pow2(n - 1) }

  lemma {:induction false} OrBound(a: nat, b: nat, n: nat)
    requires a < Pow2(n) && b < Pow2(n)
    ensures Or(a, b) < Pow2(n)
    decreases n
  {
    if n != 0 {
      OrBound(a / 2, b / 2, n - 1);
    }
  }

  lemma {:induction false} OrSelf(a: nat)
    ensures Or(a, a) == a
  {
    if a != 0 {
      OrSelf(a / 2);
    }
  }

  lemma {:induction false} OrZero(a: nat)
    ensures Or(a, 0) == a
  {
    if a != 0 {
      OrZero(a / 2);
    }
  }

  /** Bit `k` of a number. */
  predicate Bit(x: nat, k: nat) {
    if k == 0 then x % 2 == 1 else Bit(x / 2, k - 1)
  }

  lemma {:induction false} OrBits(a: nat, b: nat, k: nat)
    ensures Bit(Or(a, b), k) <==> Bit(a, k) || Bit(b, k)
    decreases k
  {
    if k > 0 {
      OrBits(a / 2, b / 2, k - 1);
      assert Or(a, b) / 2 == Or(a / 2, b / 2);
    } else {
      assert Or(a, b) % 2 == if a % 2 == 1 || b % 2 == 1 then 1 else 0;
    }
  }

  function OrFrame(a: FrameNo, b: FrameNo): FrameNo {
    assert Pow2(40) == FRAMES by {
      assert Pow2(10) == 0x400;
      assert Pow2(20) == 0x10_0000;
      assert Pow2(30) == 0x4000_0000;
    }
    OrBound(a, b, 40);
    Or(a, b)
  }

  /** `PageTableEntry::set`: the address bits under the mask, or-ed with the flags. */
  function SetWord(addr: nat, flags: Word): Word {
    flags.(frame := OrFrame(addr / PAGE_SIZE % FRAMES, flags.frame))
  }

  /** `PageTableEntry::addr`. */
  function AddrOf(w: Word): nat { w.frame * PAGE_SIZE }

  /** Setting an entry keeps every flag. Its frame bits are those of the address and those
      the flags carry: pure flags give exactly the frame of the address, and a queried
      word, address bits included, is reproduced. */
  lemma SetWordMeaning(addr: nat, flags: Word)
    ensures var w := SetWord(addr, flags);
      && w.present == flags.present && w.writable == flags.writable && w.user == flags.user
      && w.low == flags.low && w.high == flags.high && w.nx == flags.nx
    ensures forall k :: 0 <= k < 40 ==>
      (Bit(SetWord(addr, flags).frame, k) <==> Bit(addr / PAGE_SIZE % FRAMES, k) || Bit(flags.frame, k))
    ensures flags.frame == 0 ==> SetWord(addr, flags).frame == addr / PAGE_SIZE % FRAMES
    ensures addr == flags.frame * PAGE_SIZE ==> SetWord(addr, flags) == flags
  {
    hide Or, Bit, Pow2;
    var a := addr / PAGE_SIZE % FRAMES;
    OrZero(a);
    OrSelf(a);
    forall k | 0 <= k < 40 ensures Bit(Or(a, flags.frame), k) <==> Bit(a, k) || Bit(flags.frame, k) {
      OrBits(a, flags.frame, k);
    }
  }

  predicate Aligned(addr: nat) { addr % PAGE_SIZE == 0 }

  /** `(addr + PAGE_SIZE - 1) & !(PAGE_SIZE - 1)` on a 64-bit `usize`. */
  function AlignUp(addr: nat): nat {
    (addr + PAGE_SIZE - 1) % USIZE / PAGE_SIZE * PAGE_SIZE
  }

  function SaturatingAdd(a: nat, b: nat): nat {
    if a + b < USIZE then a + b else USIZE - 1
  }

  /** The 36 address bits that `split_indices` looks at. */
  function PageOf(virt: nat): (p: nat)
    ensures p < PAGES
  {
    virt / PAGE_SIZE % PAGES
  }

  predicate Canonical(virt: nat) {
    virt < 0x8000_0000_0000 || 0xFFFF_8000_0000_0000 <= virt < USIZE
  }

  /** On canonical page addresses the page number loses nothing. */
  lemma PageOfInjective(v: nat, w: nat)
    requires Canonical(v) && Canonical(w) && Aligned(v) && Aligned(w)
    ensures PageOf(v) == PageOf(w) <==> v == w
    ensures PageOf(v) < USER_PAGES <==> v < 0x8000_0000_0000
  {
  }

  /** `AlignUp` is the least page multiple not below its argument; where that would not
      fit a `usize` it wraps to zero. */
  lemma AlignUpMeaning(a: nat)
    ensures a + PAGE_SIZE <= USIZE ==> AlignUp(a) % 4096 == 0 && a <= AlignUp(a) < a + 4096
    ensures USIZE - PAGE_SIZE < a < USIZE ==> AlignUp(a) == 0
  {
  }
}
