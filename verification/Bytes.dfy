/** Frames as bytes. Physical memory is kept as table words; the loader and the shared
    regions use it as bytes, lowest byte first. */
module Bytes {
  import opened Words
  import opened PageTables

  function Weight(b: bool, n: nat): nat { if b then n else 0 }

  /** The 64-bit number whose bits are the fields of a word. */
  function Value(w: Word): nat {
    Weight(w.present, 1) + Weight(w.writable, 2) + Weight(w.user, 4) + 8 * w.low
      + 4096 * w.frame + 0x10_0000_0000_0000 * w.high + Weight(w.nx, 0x8000_0000_0000_0000)
  }

  /** Byte `j` of a number, the lowest first. */
  function ByteOf(x: nat, j: nat): nat {
    if j == 0 then x % 256 else ByteOf(x / 256, j - 1)
  }

  /** Byte `o` of physical memory, counted from the start of frame `s`. */
  function MemByte(m: Ram, s: nat, o: nat): nat {
    if s + o / PAGE_SIZE < |m| then ByteOf(Value(m[s + o / PAGE_SIZE][o % PAGE_SIZE / 8]), o % 8) else 0
  }

  lemma {:induction false} ZeroByte(j: nat)
    ensures ByteOf(0, j) == 0
  {
    if j > 0 { ZeroByte(j - 1); }
  }

  /** A blank frame holds zero bytes. */
  lemma BlankBytes(m: Ram, s: nat, o: nat)
    requires s + o / PAGE_SIZE < |m| && m[s + o / PAGE_SIZE] == Blank()
    ensures MemByte(m, s, o) == 0
  {
    ZeroByte(o % 8);
  }

  /** The byte at a virtual address under root `r`, if its page is mapped. */
  function VirtByte(m: Ram, r: nat, v: Usize): Option<nat> {
    match Lookup(m, r, PageOf(v))
    case None => None
    case Some(w) => Some(MemByte(m, w.frame, v % PAGE_SIZE))
  }

  lemma SameFrame(m: Ram, s: nat, o: nat)
    ensures MemByte(m, s, o) == MemByte(m, s + o / PAGE_SIZE, o % PAGE_SIZE)
  {
  }
}
