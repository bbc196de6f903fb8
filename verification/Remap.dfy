/** Which remaps leave other spaces alone (kernel/src/mm/addrspace.rs, `remap_region`):
    the kernel checks neither that the old range nor that the new range lies in the lower
    half, so a remap can move pages that all spaces share. */
module Remap {
  import opened Words
  import opened PageTables
  import opened Regions
  import opened Demand
  import P = Pmm
  import A = AddrSpace

  // ----- two runs on the ring of page numbers -----

  /** How many pages `q` lies after `a`, wrapping at the top. */
  function Offset(a: nat, q: nat): int { if q >= a then q - a else q - a + PAGES }

  /** Page `q` is one of the `n` pages from `a` on, wrapping at the top. */
  predicate OnRun(a: nat, n: nat, q: nat) { Offset(a, q) < n }

  lemma OffsetOf(a: nat, i: nat)
    requires a < PAGES && i < PAGES
    ensures var q := (a + i) % PAGES; q < PAGES && Offset(a, q) == i
  {
  }

  lemma OnRunIs(virt: Usize, i: nat)
    requires Aligned(virt) && i < PAGES
    ensures Offset(PageOf(virt), PageNo(virt, i)) == i
  {
    hide PageNo, PageOf;
    PageNoIs(virt, i);
    OffsetOf(PageOf(virt), i);
  }

  lemma PageAtOffset(virt: Usize, q: nat)
    requires Aligned(virt) && q < PAGES
    ensures 0 <= Offset(PageOf(virt), q) < PAGES && PageNo(virt, Offset(PageOf(virt), q)) == q
  {
    hide PageNo, PageOf;
    var o := Offset(PageOf(virt), q);
    OffsetOf(PageOf(virt), o);
    PageNoIs(virt, o);
  }

  /** Runs that agree at their ends and at the ends of the upper half agree on all of it.
      From different starts that takes a second run that is the tail of the first. */
  lemma RunsAgree(a: nat, b: nat, n: nat, k: nat)
    requires a < PAGES && b < PAGES && a != b && k <= n <= P.MAX_PAGES * ENTRIES && n > 0
    requires forall q: nat :: USER_PAGES <= q < PAGES ==> OnRun(a, n, q) == OnRun(b, k, q)
    requires a + n > USER_PAGES || (k > 0 && b + k > USER_PAGES)
    ensures b == a + (n - k) <= USER_PAGES
  {
    var x := if a + n - 1 < PAGES then a + n - 1 else a + n - 1 - PAGES;
    var y := if k == 0 then b else if b + k - 1 < PAGES then b + k - 1 else b + k - 1 - PAGES;
    assert a >= USER_PAGES ==> OnRun(a, n, a) == OnRun(b, k, a);
    assert b >= USER_PAGES ==> OnRun(a, n, b) == OnRun(b, k, b);
    assert x >= USER_PAGES ==> OnRun(a, n, x) == OnRun(b, k, x);
    assert y >= USER_PAGES ==> OnRun(a, n, y) == OnRun(b, k, y);
    assert OnRun(a, n, USER_PAGES) == OnRun(b, k, USER_PAGES);
    assert OnRun(a, n, PAGES - 1) == OnRun(b, k, PAGES - 1);
  }

  // ----- exactly which remaps isolate -----

  /** The pages the remap touches lie in the lower half; or the ranges start at the same page
      and the old pages that were not moved back lie in the lower half; or the moved pages
      slid to the end of the old range, and the upper-half ones held the same entries. */
  ghost predicate Harmless(m: Ram, r: nat, from: Usize, to: Usize, n: nat, k: nat)
    requires k <= n
  {
    || (PageOf(from) + n <= USER_PAGES && (k == 0 || PageOf(to) + k <= USER_PAGES))
    || (PageOf(from) == PageOf(to) && forall i :: k <= i < n ==> PageNo(from, i) < USER_PAGES)
    || (PageOf(to) == PageOf(from) + (n - k) <= USER_PAGES && Repeats(m, r, from, to, k))
  }

  ghost predicate Repeats(m: Ram, r: nat, from: Usize, to: Usize, k: nat) {
    forall i :: 0 <= i < k && PageNo(to, i) >= USER_PAGES ==>
      Lookup(m, r, PageNo(from, i)) == Lookup(m, r, PageNo(to, i))
  }

  /** Every upper-half page among those touched ends with the entry it had. */
  ghost predicate UpperKept(m: Ram, r: nat, from: Usize, to: Usize, n: nat, k: nat)
    requires k <= n
  {
    var ws := A.Relocated(m, r, from, to, n, k);
    forall q :: q in ws && q >= USER_PAGES ==> ws[q] == Lookup(m, r, q)
  }

  lemma KeepsUpper(w: A.World, w': A.World, r: nat, from: Usize, to: Usize, n: nat, k: nat)
    requires WellFormed(w.ram, w.lvl) && Root(w.lvl, r) && k <= n && A.Relocates(w, w', r, from, to, n, k)
    requires forall q :: q in A.Relocated(w.ram, r, from, to, n, k) ==> q < PAGES
    ensures A.OnlyLower(w.ram, w'.ram, w.lvl, r) <==> UpperKept(w.ram, r, from, to, n, k)
  {
    hide Lookup, Emptied, Written, PageNo, A.Relocated, Full, A.Placeable, WellFormed;
    var ws := A.Relocated(w.ram, r, from, to, n, k);
    if UpperKept(w.ram, r, from, to, n, k) {
      forall s: nat, q: nat | Root(w.lvl, s) && q < PAGES && (s != r || q >= USER_PAGES)
        ensures Lookup(w'.ram, s, q) == Lookup(w.ram, s, q)
      {
        if s != r && q < USER_PAGES {
          LowerHalfPrivate(w.ram, w.lvl, r, s, q);
        } else if s != r && Shares(w.ram, r, s, q) {
          SharedLookup(w.ram, r, s, q);
        }
      }
    }
  }

  /** The touched pages, by their place on the two runs. */
  lemma RelocatedRing(m: Ram, r: nat, from: Usize, to: Usize, n: nat, k: nat, q: nat)
    requires Aligned(from) && Aligned(to) && k <= n <= PAGES && q < PAGES
    requires Full(m, r, from, n) && A.Placeable(m, r, from, to, n, k)
    ensures var a, b, ws := PageOf(from), PageOf(to), A.Relocated(m, r, from, to, n, k);
      && (q in ws <==> OnRun(a, n, q) || OnRun(b, k, q))
      && (OnRun(a, n, q) ==> Lookup(m, r, q).Some?)
      && (OnRun(b, k, q) && !OnRun(a, n, q) ==> Lookup(m, r, q).None?)
      && (OnRun(b, k, q) ==> 0 <= Offset(b, q) && ws[q] == Lookup(m, r, PageNo(from, Offset(b, q))) && ws[q].Some?)
      && (OnRun(a, n, q) && !OnRun(b, k, q) ==> ws[q].None?)
  {
    hide Lookup, Emptied, Written, PageOf;
    var os := A.Reads(m, r, from, n);
    EmptiedAt(from, n);
    WrittenAt(to, os, k);
    PageAtOffset(from, q);
    PageAtOffset(to, q);
    hide PageNo;
    forall i | 0 <= i < n && PageNo(from, i) == q ensures OnRun(PageOf(from), n, q) { OnRunIs(from, i); }
    forall i | 0 <= i < k && PageNo(to, i) == q ensures i == Offset(PageOf(to), q) { OnRunIs(to, i); }
  }

  /** Page `q` ends with the entry it had: it lies on both runs or on neither, and if on both,
      the page it is moved from held the same entry. */
  ghost predicate Kept(m: Ram, r: nat, from: Usize, to: Usize, n: nat, k: nat, q: nat) {
    var a, b := PageOf(from), PageOf(to);
    && OnRun(a, n, q) == OnRun(b, k, q)
    && (OnRun(b, k, q) && Offset(b, q) >= 0 ==> Lookup(m, r, PageNo(from, Offset(b, q))) == Lookup(m, r, q))
  }

  lemma HarmlessKeeps(m: Ram, r: nat, from: Usize, to: Usize, n: nat, k: nat, q: nat)
    requires Aligned(from) && Aligned(to) && k <= n <= PAGES && Harmless(m, r, from, to, n, k)
    requires USER_PAGES <= q < PAGES
    ensures Kept(m, r, from, to, n, k, q)
  {
    hide Lookup, PageNo, PageOf;
    PageAtOffset(from, q);
    PageAtOffset(to, q);
  }

  lemma KeptIsHarmless(m: Ram, r: nat, from: Usize, to: Usize, n: nat, k: nat)
    requires Aligned(from) && Aligned(to) && k <= n <= P.MAX_PAGES * ENTRIES && n > 0
    requires forall q: nat :: USER_PAGES <= q < PAGES ==> Kept(m, r, from, to, n, k, q)
    ensures Harmless(m, r, from, to, n, k)
  {
    hide Lookup, PageNo, PageOf;
    var a, b := PageOf(from), PageOf(to);
    if a == b {
      forall i | k <= i < n ensures PageNo(from, i) < USER_PAGES {
        OnRunIs(from, i);
        assert PageNo(from, i) >= USER_PAGES ==> Kept(m, r, from, to, n, k, PageNo(from, i));
      }
    } else if a + n > USER_PAGES || (k > 0 && b + k > USER_PAGES) {
      forall q: nat | USER_PAGES <= q < PAGES ensures OnRun(a, n, q) == OnRun(b, k, q) {
        assert Kept(m, r, from, to, n, k, q);
      }
      RunsAgree(a, b, n, k);
      forall i | 0 <= i < k && PageNo(to, i) >= USER_PAGES
        ensures Lookup(m, r, PageNo(from, i)) == Lookup(m, r, PageNo(to, i))
      {
        OnRunIs(to, i);
        assert Kept(m, r, from, to, n, k, PageNo(to, i));
      }
    }
  }

  /** A remap that moved `k` of its `n` pages, all or fewer, changes nothing but lower-half
      pages of its own space if and only if it is harmless. When all have moved, that means
      that both ranges lie in the lower half or name the same pages. */
  lemma RemapExact(w: A.World, w': A.World, r: nat, from: Usize, to: Usize, n: nat, k: nat)
    requires WellFormed(w.ram, w.lvl) && Root(w.lvl, r) && |w.ram| <= P.MAX_PAGES && k <= n && n > 0
    requires Aligned(from) && Aligned(to) && A.Relocates(w, w', r, from, to, n, k)
    ensures A.OnlyLower(w.ram, w'.ram, w.lvl, r) <==> Harmless(w.ram, r, from, to, n, k)
    ensures k == n ==> (Harmless(w.ram, r, from, to, n, k) <==> SafeRanges(from, to, n))
  {
    hide Lookup, Overlay, Emptied, Written, Full, A.Placeable, PageNo, Harmless, Kept, WellFormed, OnRun, Offset;
    FullBound(w.ram, w.lvl, r, from, n);
    var ws := A.Relocated(w.ram, r, from, to, n, k);
    RelocatedPages(w.ram, r, from, to, n, k);
    KeepsUpper(w, w', r, from, to, n, k);
    forall q: nat | USER_PAGES <= q < PAGES
      ensures Kept(w.ram, r, from, to, n, k, q) <==> (q in ws ==> ws[q] == Lookup(w.ram, r, q))
    {
      KeptIs(w.ram, r, from, to, n, k, q);
    }
    if Harmless(w.ram, r, from, to, n, k) {
      forall q: nat | USER_PAGES <= q < PAGES ensures Kept(w.ram, r, from, to, n, k, q) {
        HarmlessKeeps(w.ram, r, from, to, n, k, q);
      }
    }
    if forall q: nat :: USER_PAGES <= q < PAGES ==> Kept(w.ram, r, from, to, n, k, q) {
      KeptIsHarmless(w.ram, r, from, to, n, k);
    }
    if k == n { HarmlessWhole(w.ram, r, from, to, n); }
  }

  /** Both ranges lie in the lower half, or they name the same pages. */
  predicate SafeRanges(from: Usize, to: Usize, n: nat) {
    || (PageOf(from) + n <= USER_PAGES && PageOf(to) + n <= USER_PAGES)
    || PageOf(from) == PageOf(to)
  }

  lemma HarmlessWhole(m: Ram, r: nat, from: Usize, to: Usize, n: nat)
    requires n > 0
    ensures Harmless(m, r, from, to, n, n) <==> SafeRanges(from, to, n)
  {
  }

  lemma RelocatedPages(m: Ram, r: nat, from: Usize, to: Usize, n: nat, k: nat)
    requires Aligned(to) && k <= n <= PAGES
    ensures forall q :: q in A.Relocated(m, r, from, to, n, k) ==> q < PAGES
  {
    hide Lookup, Emptied, Written;
    EmptiedAt(from, n);
    WrittenAt(to, A.Reads(m, r, from, n), k);
  }

  lemma KeptIs(m: Ram, r: nat, from: Usize, to: Usize, n: nat, k: nat, q: nat)
    requires Aligned(from) && Aligned(to) && k <= n <= PAGES && q < PAGES
    requires Full(m, r, from, n) && A.Placeable(m, r, from, to, n, k)
    ensures var ws := A.Relocated(m, r, from, to, n, k);
      Kept(m, r, from, to, n, k, q) <==> (q in ws ==> ws[q] == Lookup(m, r, q))
  {
    hide Lookup, Emptied, Written, PageOf, PageNo, Full, A.Placeable, A.Relocated;
    RelocatedRing(m, r, from, to, n, k, q);
  }

  /** A completed remap onto the same pages changes nothing. */
  lemma SamePlace(w: A.World, w': A.World, r: nat, from: Usize, to: Usize, n: nat)
    requires Root(w.lvl, r) && Aligned(from) && Aligned(to) && n <= PAGES && PageOf(from) == PageOf(to)
    requires A.Relocates(w, w', r, from, to, n, n)
    ensures SameLookups(w.ram, w'.ram, w.lvl)
  {
    hide Lookup, Emptied, Written, PageNo, PageOf, A.Relocated, Full, A.Placeable;
    forall s: nat, q: nat | Root(w.lvl, s) && q < PAGES ensures Lookup(w'.ram, s, q) == Lookup(w.ram, s, q) {
      RelocatedRing(w.ram, r, from, to, n, n, q);
      PageAtOffset(from, q);
      if s != r && Shares(w.ram, r, s, q) { SharedLookup(w.ram, r, s, q); }
    }
  }

  /** The owner of a space may move the first kernel page: the request is not refused, and
      when it goes through, more than lower-half pages of the space change. Nor is a new
      range refused that starts just above the lower half. */
  lemma KernelPageMoves(w: A.World, w': A.World, id: nat)
    requires id in w.spaces && WellFormed(w.ram, w.lvl) && Root(w.lvl, A.RootOf(w.spaces[id]))
    requires |w.ram| <= P.MAX_PAGES
    requires A.Relocates(w, w', A.RootOf(w.spaces[id]), A.KERNEL_BASE, 0x40_0000, 1, 1)
    ensures A.RemapRefusal(w.spaces, id, w.spaces[id].owner, A.KERNEL_BASE, 0x40_0000, 4096) == None
    ensures A.PageCount(4096) == 1 && PageOf(A.KERNEL_BASE) == USER_PAGES
    ensures !A.OnlyLower(w.ram, w'.ram, w.lvl, A.RootOf(w.spaces[id]))
    ensures A.RemapRefusal(w.spaces, id, w.spaces[id].owner, 0x40_0000, 0x8000_0000_0000, 4096) == None
    ensures PageOf(0x8000_0000_0000) == USER_PAGES
  {
    hide A.Relocates, A.OnlyLower, WellFormed;
    RemapExact(w, w', A.RootOf(w.spaces[id]), A.KERNEL_BASE, 0x40_0000, 1, 1);
  }

  /** What it takes: the first kernel page is mapped, page 0x400 is not, and three frames are
      free. Then the owner's request goes through, and more than lower-half pages of the
      space have changed. */
  method MoveKernelPage(mgr: A.AddressSpaceManager, id: nat) returns (r: A.Result<()>)
    requires mgr.Valid() && id in mgr.spaces && mgr.spaces[id].pml4 != 0 && |mgr.vm.pmm.Free()| >= 3
    requires Lookup(mgr.vm.pmm.ram, A.RootOf(mgr.spaces[id]), USER_PAGES).Some?
    requires Lookup(mgr.vm.pmm.ram, A.RootOf(mgr.spaces[id]), 0x400).None?
    modifies mgr.vm`lvl, mgr.vm.pmm, mgr.vm.pmm.bitmap
    ensures mgr.Valid() && r.Ok?
    ensures !A.OnlyLower(old(mgr.vm.pmm.ram), mgr.vm.pmm.ram, old(mgr.vm.lvl), A.RootOf(mgr.spaces[id]))
  {
    hide A.Relocates, A.OnlyLower, A.Step, A.Registered, WellFormed, UserReach, Lookup, Needed, Missing, P.FreeSet;
    hide Grows, Paid;
    ghost var w, root := mgr.View(), A.RootOf(mgr.spaces[id]);
    A.RegisteredRoots(mgr.spaces, mgr.vm.lvl, mgr.vm.active, mgr.nextId);
    assert PageOf(A.KERNEL_BASE) == USER_PAGES && PageOf(0x40_0000) == 0x400 && A.PageCount(4096) == 1;
    NeededOne(w.ram, root, A.KERNEL_BASE);
    NeededOne(w.ram, root, 0x40_0000);
    hide PageNo;
    r := mgr.RemapRegion(id, mgr.spaces[id].owner, A.KERNEL_BASE, 0x40_0000, 4096);
    KernelPageMoves(w, mgr.View(), id);
  }
}
