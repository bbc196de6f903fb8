/** Address spaces (kernel/src/mm/addrspace.rs): per-owner roots, region mapping
    with rollback, and the mapping count. */
module AddrSpace {
  import opened Words
  import opened PageTables
  import opened Regions
  import opened Demand
  import P = Pmm
  import V = Vm

  const KERNEL_BASE: nat := 0xFFFF_8000_0000_0000
  const USER_CANONICAL_MAX: nat := 0x7FFF_FFFF_FFFF
  const MAX_REGION_SIZE: nat := 256 * 1024 * 1024

  datatype Error =
    | NotFound | OutOfMemory | PermissionDenied | InvalidAddress | InvalidSize | KernelSpaceViolation
    | InUse | AlreadyMapped | NotMapped | KernelMappingSetupFailed

  datatype Result<+T> = Ok(value: T) | Err(error: Error)

  datatype Space = Space(pml4: Usize, owner: nat, count: Usize)

  type Spaces = map<nat, Space>

  function RootOf(s: Space): nat { s.pml4 / PAGE_SIZE }

  function Counted(spaces: Spaces, id: nat, count: Usize): Spaces
    requires id in spaces
  {
    spaces[id := spaces[id].(count := count)]
  }

  /** `dec_mappings`. */
  function Lowered(count: nat, n: nat): (c: nat)
    ensures c <= count
  {
    if count >= n then count - n else 0
  }

  /** What is left of a count after pages were counted and uncounted: saturation loses some. */
  function Capped(spaces: Spaces, id: nat, pages: nat): Spaces {
    if id in spaces && pages < USIZE <= spaces[id].count + pages then Counted(spaces, id, USIZE - 1 - pages) else spaces
  }

  function PageCount(size: Usize): nat { AlignUp(size) / PAGE_SIZE }

  // ----- which requests are refused, and how -----

  function Ownership(spaces: Spaces, id: nat, caller: nat): Option<Error> {
    if id !in spaces then Some(NotFound)
    else if spaces[id].owner != caller then Some(PermissionDenied)
    else None
  }

  function MapRefusal(spaces: Spaces, id: nat, caller: nat, virt: Usize, phys: Usize, size: Usize): Option<Error> {
    if !Aligned(virt) || !Aligned(phys) then Some(InvalidAddress)
    else if size == 0 || size > MAX_REGION_SIZE then Some(InvalidSize)
    else if virt > USER_CANONICAL_MAX then Some(InvalidAddress)
    else if SaturatingAdd(virt, size) > USER_CANONICAL_MAX then Some(InvalidSize)
    else Ownership(spaces, id, caller)
  }

  function UnmapRefusal(spaces: Spaces, id: nat, caller: nat, virt: Usize, size: Usize): Option<Error> {
    if !Aligned(virt) || virt > USER_CANONICAL_MAX then Some(InvalidAddress)
    else if size == 0 || SaturatingAdd(virt, size) > USER_CANONICAL_MAX then Some(InvalidSize)
    else Ownership(spaces, id, caller)
  }

  function RemapRefusal(spaces: Spaces, id: nat, caller: nat, from: Usize, to: Usize, size: Usize): Option<Error> {
    if !Aligned(from) || !Aligned(to) then Some(InvalidAddress)
    else if size == 0 then Some(InvalidSize)
    else if to >= KERNEL_BASE || SaturatingAdd(to, size) > KERNEL_BASE then Some(KernelSpaceViolation)
    else Ownership(spaces, id, caller)
  }

  /** Which requests are accepted, and which error each of the others gets. */
  lemma MapRefusalMeaning(spaces: Spaces, id: nat, caller: nat, virt: Usize, phys: Usize, size: Usize)
    ensures var e := MapRefusal(spaces, id, caller, virt, phys, size);
      var aligned := virt % 4096 == 0 && phys % 4096 == 0;
      var sized := 0 < size <= 0x1000_0000;
      var ranged := aligned && sized && virt + size <= 0x7FFF_FFFF_FFFF;
      && (e == None <==> ranged && id in spaces && spaces[id].owner == caller)
      && (e == Some(NotFound) <==> ranged && id !in spaces)
      && (e == Some(PermissionDenied) <==> ranged && id in spaces && spaces[id].owner != caller)
      && (e == Some(InvalidAddress) <==> !aligned || (sized && virt > 0x7FFF_FFFF_FFFF))
      && (e == Some(InvalidSize) <==> aligned && (!sized || virt <= 0x7FFF_FFFF_FFFF < virt + size))
  {
  }

  lemma UnmapRefusalMeaning(spaces: Spaces, id: nat, caller: nat, virt: Usize, size: Usize)
    ensures var e := UnmapRefusal(spaces, id, caller, virt, size);
      var placed := virt % 4096 == 0 && virt <= 0x7FFF_FFFF_FFFF;
      var ranged := placed && size > 0 && virt + size <= 0x7FFF_FFFF_FFFF;
      && (e == None <==> ranged && id in spaces && spaces[id].owner == caller)
      && (e == Some(NotFound) <==> ranged && id !in spaces)
      && (e == Some(PermissionDenied) <==> ranged && id in spaces && spaces[id].owner != caller)
      && (e == Some(InvalidAddress) <==> !placed)
      && (e == Some(InvalidSize) <==> placed && !ranged)
  {
  }

  lemma RemapRefusalMeaning(spaces: Spaces, id: nat, caller: nat, from: Usize, to: Usize, size: Usize)
    ensures var e := RemapRefusal(spaces, id, caller, from, to, size);
      var aligned := from % 4096 == 0 && to % 4096 == 0;
      var below := to < 0xFFFF_8000_0000_0000 && to + size <= 0xFFFF_8000_0000_0000;
      && (e == None <==> aligned && size > 0 && below && id in spaces && spaces[id].owner == caller)
      && (e == Some(NotFound) <==> aligned && size > 0 && below && id !in spaces)
      && (e == Some(PermissionDenied) <==>
            aligned && size > 0 && below && id in spaces && spaces[id].owner != caller)
      && (e == Some(InvalidAddress) <==> !aligned)
      && (e == Some(InvalidSize) <==> aligned && size == 0)
      && (e == Some(KernelSpaceViolation) <==> aligned && size > 0 && !below)
  {
  }

  /** As many pages as it takes to hold the size, and no more. */
  lemma PageCountMeaning(size: Usize)
    requires size + PAGE_SIZE <= USIZE
    ensures size <= PageCount(size) * 4096 < size + 4096
  {
  }

  /** An accepted region lies in the lower half, whole pages included. */
  lemma RegionInUserHalf(virt: Usize, size: Usize)
    requires Aligned(virt) && virt <= USER_CANONICAL_MAX && size > 0 && SaturatingAdd(virt, size) <= USER_CANONICAL_MAX
    ensures virt / PAGE_SIZE + PageCount(size) <= USER_PAGES && PageCount(size) > 0
  {
  }

  /** Consecutive page addresses of the lower half are consecutive pages. */
  lemma PageStep(virt: Usize, i: nat)
    requires Aligned(virt) && virt / PAGE_SIZE + i < USER_PAGES
    ensures virt + i * PAGE_SIZE < USIZE && Aligned(virt + i * PAGE_SIZE)
    ensures PageOf(virt + i * PAGE_SIZE) == virt / PAGE_SIZE + i
  {
  }

  lemma MapWordsStep(phys: Usize, n: nat, flags: Word)
    ensures MapWords(phys, n + 1, flags) ==
      MapWords(phys, n, flags) + [Leaf(SetWord((phys + n * PAGE_SIZE) % USIZE, flags))]
  {
  }

  class AddressSpaceManager {
    const vm: V.Vm
    var spaces: Spaces
    var nextId: nat

    /** No space is registered at the start. */
    constructor (vm: V.Vm)
      requires vm.Valid()
      ensures Valid() && this.vm == vm && spaces == map[] && nextId == 1
    {
      this.vm := vm;
      spaces, nextId := map[], 1;
    }

    /** Every space has a root of its own, distinct from the kernel's. */
    ghost predicate Valid()
      reads this, vm, vm.pmm, vm.pmm.bitmap
    {
      vm.Valid() && Registered(spaces, vm.lvl, vm.active, nextId)
    }

    /** Unmaps `n` pages one by one, as the loops of `unmap_region`, `remap_region`
        and the rollback of `map_region` do; pages that are not mapped are skipped. */
    method UnmapRun(pml4: Usize, virt: Usize, n: nat) returns (done: nat)
      requires vm.Valid() && pml4 != 0 && V.RootAddr(vm.lvl, pml4) && Aligned(virt)
      modifies vm`lvl, vm.pmm, vm.pmm.bitmap
      ensures vm.Valid() && vm.pmm.total == old(vm.pmm.total)
      ensures vm.lvl == old(vm.lvl) && vm.pmm.Free() == old(vm.pmm.Free())
      ensures Grows(old(vm.pmm.ram), vm.lvl, vm.pmm.ram, vm.lvl, pml4 / PAGE_SIZE)
      ensures Overlay(old(vm.pmm.ram), vm.pmm.ram, vm.lvl, pml4 / PAGE_SIZE, Emptied(virt, n))
      ensures PageOf(virt) + n <= USER_PAGES ==>
        Patched(old(vm.pmm.ram), vm.pmm.ram, vm.lvl, pml4 / PAGE_SIZE, PageOf(virt), Nones(n))
      ensures done <= n
      ensures n <= PAGES && Full(old(vm.pmm.ram), pml4 / PAGE_SIZE, virt, n) ==> done == n
      ensures n <= PAGES && Vacant(old(vm.pmm.ram), pml4 / PAGE_SIZE, virt, n) ==> done == 0
    {
      hide Grows, Overlay, Patched, WellFormed, UserReach, Lookup, LookupSet, Emptied, Full, Vacant, PageNo, P.FreeSet;
      done := 0;
      ghost var m, l, r := vm.pmm.ram, vm.lvl, pml4 / PAGE_SIZE;
      GrowsRefl(m, l, r);
      OverlayNone(m, l, r);
      EmptiedStep(virt, 0);
      for i := 0 to n
        invariant vm.Valid() && vm.pmm.total == old(vm.pmm.total)
        invariant vm.lvl == l && vm.pmm.Free() == old(vm.pmm.Free())
        invariant Grows(m, l, vm.pmm.ram, l, r) && Overlay(m, vm.pmm.ram, l, r, Emptied(virt, i))
        invariant done <= i && (n <= PAGES && Full(m, r, virt, i) ==> done == i)
        invariant n <= PAGES && Vacant(m, r, virt, i) ==> done == 0
      {
        ghost var mi := vm.pmm.ram;
        WrapAligned(virt, i);
        PageNoAt(virt, i);
        EmptiedMiss(m, mi, l, r, virt, i);
        var u := vm.UnmapPageInPml4(pml4, (virt + i * PAGE_SIZE) % USIZE);
        GrowsTransitive(m, l, mi, l, vm.pmm.ram, l, r);
        if u.Err? {
          LookupIs(mi, l, r, PageNo(virt, i));
        }
        OverlayStep(m, l, mi, l, vm.pmm.ram, r, Emptied(virt, i), PageNo(virt, i), None);
        EmptiedStep(virt, i);
        if u.Ok? {
          done := done + 1;
        }
      }
      if PageOf(virt) + n <= USER_PAGES {
        EmptiedPatch(m, vm.pmm.ram, l, r, virt, n);
      }
    }

    /** The mapping loop of `map_region`: maps pages as far as they are empty and the free
        frames last, and stops at the first page that fails. */
    method MapSome(pml4: Usize, virt: Usize, phys: Usize, n: nat, flags: Word) returns (k: nat)
      requires vm.Valid() && Aligned(pml4) && Root(vm.lvl, pml4 / PAGE_SIZE)
      requires Aligned(virt) && Aligned(phys) && virt / PAGE_SIZE + n <= USER_PAGES
      modifies vm`lvl, vm.pmm, vm.pmm.bitmap
      ensures vm.Valid() && vm.pmm.total == old(vm.pmm.total)
      ensures Paid(old(vm.lvl), old(vm.pmm.Free()), vm.lvl, vm.pmm.Free())
      ensures Grows(old(vm.pmm.ram), old(vm.lvl), vm.pmm.ram, vm.lvl, pml4 / PAGE_SIZE)
      ensures k == if pml4 == 0 then 0 else Reach(old(vm.pmm.ram), pml4 / PAGE_SIZE, virt, n, |old(vm.pmm.Free())|)
      ensures var r, words := pml4 / PAGE_SIZE, MapWords(phys, k, flags);
        Patched(old(vm.pmm.ram), vm.pmm.ram, old(vm.lvl), r, virt / PAGE_SIZE, words)
      ensures var needed := Needed(old(vm.pmm.ram), pml4 / PAGE_SIZE, virt, n);
        k == n ==> |vm.pmm.Free()| == |old(vm.pmm.Free())| - needed
    {
      hide Grows, Patched, PageSet, LookupSet, SameLookups, WellFormed, UserReach, Lookup, Missing, Paid, MapWords;
      hide SetWord, P.FreeSet, Tab, Needed, Paved, Fits, PageNo;
      ghost var m, l, r, base, f := vm.pmm.ram, vm.lvl, pml4 / PAGE_SIZE, virt / PAGE_SIZE, vm.pmm.Free();
      GrowsRefl(m, l, r);
      V.PaidRefl(l, f);
      PatchNone(m, m, l, r, base);
      MapWordsNone(phys, flags);
      PavedNone(m, r, virt);
      FitsNone(m, r, virt, |f|);
      k := 0;
      while k < n
        invariant k <= n && vm.Valid() && vm.pmm.total == old(vm.pmm.total) && Paid(l, f, vm.lvl, vm.pmm.Free())
        invariant Grows(m, l, vm.pmm.ram, vm.lvl, r) && Patched(m, vm.pmm.ram, l, r, base, MapWords(phys, k, flags))
        invariant Paved(m, vm.pmm.ram, r, virt, k) && |vm.pmm.Free()| == |f| - Needed(m, r, virt, k)
        invariant Fits(m, r, virt, k, |f|) && (k > 0 ==> pml4 != 0)
      {
        ghost var mi, li, fi := vm.pmm.ram, vm.lvl, vm.pmm.Free();
        PageStep(virt, k);
        PageNoAt(virt, k);
        WrapAligned(phys, k);
        GrowsRoots(m, l, mi, li, r);
        PatchOutside(m, mi, l, r, base, MapWords(phys, k, flags), base + k);
        var v, a := virt + k * PAGE_SIZE, (phys + k * PAGE_SIZE) % USIZE;
        NextFits(m, mi, r, virt, k, |f|, |fi|, pml4, v, a);
        var e := vm.MapPageInPml4(pml4, v, a, flags);
        GrowsTransitive(m, l, mi, li, vm.pmm.ram, vm.lvl, r);
        PaidTransitive(l, f, li, fi, vm.lvl, vm.pmm.Free());
        if e.Err? {
          PatchThenSame(m, mi, vm.pmm.ram, l, li, r, base, MapWords(phys, k, flags));
          if pml4 != 0 { ReachIs(m, r, virt, n, |f|, k); }
          return;
        }
        PrivateSet(mi, vm.pmm.ram, li, r, base + k, Leaf(SetWord(a, flags)));
        PatchNext(m, mi, vm.pmm.ram, l, li, r, base, MapWords(phys, k, flags), Leaf(SetWord(a, flags)));
        MapWordsStep(phys, k, flags);
        PaveStep(m, mi, li, fi, vm.pmm.ram, vm.lvl, vm.pmm.Free(), r, virt, k);
        k := k + 1;
      }
      ReachIs(m, r, virt, n, |f|, k);
    }

    /** Mapping a run of pages with the rollback of `map_region`: on failure every
        translation is as before; `left` counts the pages the rollback missed, which are
        those mapped without the present flag. */
    method MapRun(pml4: Usize, virt: Usize, phys: Usize, n: nat, flags: Word) returns (ok: bool, left: nat)
      requires vm.Valid() && Aligned(pml4) && Root(vm.lvl, pml4 / PAGE_SIZE)
      requires Aligned(virt) && Aligned(phys) && virt / PAGE_SIZE + n <= USER_PAGES
      modifies vm`lvl, vm.pmm, vm.pmm.bitmap
      ensures vm.Valid() && vm.pmm.total == old(vm.pmm.total)
      ensures Paid(old(vm.lvl), old(vm.pmm.Free()), vm.lvl, vm.pmm.Free())
      ensures Grows(old(vm.pmm.ram), old(vm.lvl), vm.pmm.ram, vm.lvl, pml4 / PAGE_SIZE)
      ensures ok <==> n == 0 || (pml4 != 0 && Fits(old(vm.pmm.ram), pml4 / PAGE_SIZE, virt, n, |old(vm.pmm.Free())|))
      ensures ok ==>
        Patched(old(vm.pmm.ram), vm.pmm.ram, old(vm.lvl), pml4 / PAGE_SIZE, virt / PAGE_SIZE, MapWords(phys, n, flags))
      ensures ok ==>
        |vm.pmm.Free()| == |old(vm.pmm.Free())| - Needed(old(vm.pmm.ram), pml4 / PAGE_SIZE, virt, n)
      ensures !ok ==> SameLookups(old(vm.pmm.ram), vm.pmm.ram, old(vm.lvl))
      ensures left == if ok || flags.present || pml4 == 0 then 0
                      else Reach(old(vm.pmm.ram), pml4 / PAGE_SIZE, virt, n, |old(vm.pmm.Free())|)
    {
      hide Grows, Patched, SameLookups, WellFormed, UserReach, Lookup, Paid, MapWords, Nones, P.FreeSet, Needed, Fits;
      hide Full, Vacant;
      ghost var m, l, r, base, f := vm.pmm.ram, vm.lvl, pml4 / PAGE_SIZE, virt / PAGE_SIZE, vm.pmm.Free();
      var k := MapSome(pml4, virt, phys, n, flags);
      ReachIs(m, r, virt, n, |f|, Reach(m, r, virt, n, |f|));
      if k == n {
        return true, 0;
      }
      ghost var mr, lr := vm.pmm.ram, vm.lvl;
      GrowsRoots(m, l, mr, lr, r);
      NonesNone();
      MapWordsNone(phys, flags);
      left := 0;
      LowAddr(virt);
      if k > 0 {
        FitsEmpty(m, r, virt, k, |f|);
        MapWordsMapped(m, mr, l, r, virt, phys, k, flags);
        var back := UnmapRun(pml4, virt, k);
        PatchOver(m, mr, vm.pmm.ram, l, lr, r, base, MapWords(phys, k, flags), Nones(k));
        GrowsTransitive(m, l, mr, lr, vm.pmm.ram, vm.lvl, r);
        left := k - back;
      }
      EmptiedSame(m, vm.pmm.ram, l, r, base, k);
      return false, left;
    }

    ghost function View(): World
      reads this, vm, vm.pmm
    {
      World(vm.pmm.ram, vm.lvl, spaces, vm.active / PAGE_SIZE)
    }

    /** `AddressSpace::new`: a root with an empty lower half and the kernel's upper
        half, or nothing at all. */
    method New() returns (r: Result<Usize>)
      requires vm.Valid()
      modifies vm`lvl, vm.pmm, vm.pmm.bitmap
      ensures vm.Valid() && vm.pmm.total == old(vm.pmm.total)
      ensures r.Ok? <==> old(vm.pmm.Free()) != {} && vm.active != 0
      ensures r.Err? ==> r.error == if old(vm.pmm.Free()) == {} then OutOfMemory else KernelMappingSetupFailed
      ensures r.Err? ==>
        vm.lvl == old(vm.lvl) && vm.pmm.Free() == old(vm.pmm.Free()) && SameLookups(old(vm.pmm.ram), vm.pmm.ram, vm.lvl)
      ensures r.Ok? ==>
        Aligned(r.value) && r.value / PAGE_SIZE !in old(vm.lvl) && vm.lvl == old(vm.lvl)[r.value / PAGE_SIZE := 4]
      ensures r.Ok? ==> r.value / PAGE_SIZE in old(vm.pmm.Free())
      ensures r.Ok? ==> vm.pmm.Free() == old(vm.pmm.Free()) - {r.value / PAGE_SIZE}
      ensures r.Ok? ==> NewRoot(old(vm.pmm.ram), vm.pmm.ram, old(vm.lvl), vm.active / PAGE_SIZE, r.value / PAGE_SIZE)
    {
      hide WellFormed, UserReach, Lookup, P.FreeSet, P.Released, P.Range, Cloned, NewRoot, SameLookups;
      ghost var m, l, f := vm.pmm.ram, vm.lvl, vm.pmm.Free();
      SameRefl(m, l);
      var phys := vm.pmm.AllocPageZeroed();
      if phys.None? {
        return Err(OutOfMemory);
      }
      var d := phys.value / PAGE_SIZE;
      ghost var m1 := vm.pmm.ram;
      ScrubFrame(m, l, d);
      var c := vm.CloneKernelMappings(phys.value);
      if c.Err? {
        P.ReleasedRange(d, 1, vm.pmm.total);
        vm.pmm.FreePage(phys.value);
        P.SingleRun({});
        return Err(KernelMappingSetupFailed);
      }
      CloneNewRoot(m, m1, l, vm.active / PAGE_SIZE, d);
      return Ok(phys.value);
    }

    /** `create`: registers a new space under a fresh id. */
    method Create(owner: nat) returns (r: Result<nat>)
      requires Valid()
      modifies this, vm`lvl, vm.pmm, vm.pmm.bitmap
      ensures Valid() && vm.pmm.total == old(vm.pmm.total)
      ensures r.Ok? <==> old(vm.pmm.Free()) != {} && vm.active != 0
      ensures r.Err? ==> r.error == if old(vm.pmm.Free()) == {} then OutOfMemory else KernelMappingSetupFailed
      ensures r.Err? ==> spaces == old(spaces) && vm.lvl == old(vm.lvl) && vm.pmm.Free() == old(vm.pmm.Free())
      ensures nextId == if r.Ok? then old(nextId) + 1 else old(nextId)
      ensures r.Ok? ==> forall j :: j in old(spaces) ==> j in spaces && spaces[j] == old(spaces)[j]
      ensures r.Ok? ==>
        r.value == old(nextId) && r.value in spaces && spaces[r.value].owner == owner && spaces[r.value].count == 0
      ensures r.Ok? ==> var d := RootOf(spaces[r.value]);
        d !in old(vm.lvl) && vm.lvl == old(vm.lvl)[d := 4] && vm.pmm.Free() == old(vm.pmm.Free()) - {d}
      ensures r.Ok? ==> RootOf(spaces[r.value]) in old(vm.pmm.Free())
      ensures Step(old(View()), View(), if r.Ok? then Added(r.value) else Refused)
    {
      hide WellFormed, UserReach, Lookup, P.FreeSet, SameLookups, NewRoot, Registered;
      ghost var l := vm.lvl;
      var pml4 := New();
      if pml4.Err? {
        return Err(pml4.error);
      }
      RegisteredAdd(spaces, l, vm.active, nextId, Space(pml4.value, owner, 0));
      spaces := spaces[nextId := Space(pml4.value, owner, 0)];
      nextId := nextId + 1;
      return Ok(nextId - 1);
    }

    /** `destroy`: only the owner, and only with no mapping counted; frees the root. */
    method Destroy(id: nat, caller: nat) returns (r: Result<()>)
      requires Valid()
      modifies `spaces, vm`lvl, vm.pmm`free, vm.pmm.bitmap
      ensures Valid()
      ensures r == if old(Ownership(spaces, id, caller)).Some? then Err(old(Ownership(spaces, id, caller)).value)
        else if old(spaces)[id].count > 0 then Err(InUse) else Ok(())
      ensures r == Err(NotFound) <==> id !in old(spaces)
      ensures r == Err(PermissionDenied) <==> id in old(spaces) && old(spaces)[id].owner != caller
      ensures r.Ok? ==> id in old(spaces) && old(spaces)[id].owner == caller && spaces == old(spaces) - {id}
      ensures r.Err? ==> View() == old(View()) && vm.pmm.Free() == old(vm.pmm.Free())
      ensures r.Ok? ==> vm.pmm.Free() == old(vm.pmm.Free()) + {RootOf(old(spaces)[id])}
      ensures r.Ok? ==> vm.lvl == old(vm.lvl) - {RootOf(old(spaces)[id])}
      ensures Step(old(View()), View(), if r.Ok? then Removed(id) else Refused)
    {
      hide WellFormed, UserReach, Lookup, P.FreeSet, P.Released, P.Range, SameLookups, Registered, Step;
      ghost var w := View();
      RefusedStep(w);
      RegisteredRoots(spaces, vm.lvl, vm.active, nextId);
      if Ownership(spaces, id, caller).Some? {
        return Err(Ownership(spaces, id, caller).value);
      }
      if spaces[id].count > 0 {
        return Err(InUse);
      }
      var d := RootOf(spaces[id]);
      RegisteredDrop(spaces, vm.lvl, vm.active, nextId, id);
      DropRoot(vm.pmm.ram, vm.lvl, d);
      DropReach(vm.pmm.ram, vm.lvl, d);
      P.ReleasedRange(d, 1, vm.pmm.total);
      P.SingleRun({});
      vm.pmm.FreePage(spaces[id].pml4);
      vm.lvl := vm.lvl - {d};
      spaces := spaces - {id};
      DropStep(w, View(), id);
      return Ok(());
    }

    /** `map_region`: refused without effect, or rolled back to the old
        translations, or mapped page by page as asked. */
    method MapRegion(id: nat, caller: nat, virt: Usize, phys: Usize, size: Usize, flags: Word) returns (r: Result<()>)
      requires Valid()
      modifies `spaces, vm`lvl, vm.pmm, vm.pmm.bitmap
      ensures Valid() && vm.pmm.total == old(vm.pmm.total)
      ensures Paid(old(vm.lvl), old(vm.pmm.Free()), vm.lvl, vm.pmm.Free())
      ensures Undisturbed(old(vm.pmm.ram), old(vm.lvl), vm.pmm.ram, vm.lvl)
      ensures old(MapRefusal(spaces, id, caller, virt, phys, size)).Some? ==>
        r == Err(old(MapRefusal(spaces, id, caller, virt, phys, size)).value) && View() == old(View())
      ensures var refusal, free := old(MapRefusal(spaces, id, caller, virt, phys, size)), |old(vm.pmm.Free())|;
        Step(old(View()), View(), MapOp(r, refusal, id, virt, phys, size, flags, free))
      ensures r.Ok? ==> id in old(spaces) && old(spaces)[id].owner == caller
      ensures id in old(spaces) && old(spaces)[id].owner != caller ==> r.Err? && View() == old(View())
      ensures r.Ok? ==> old(MapRefusal(spaces, id, caller, virt, phys, size)).None?
      ensures spaces.Keys == old(spaces).Keys && forall j :: j in spaces ==>
        && spaces[j].pml4 == old(spaces)[j].pml4 && spaces[j].owner == old(spaces)[j].owner
        && (j != id ==> spaces[j].count == old(spaces)[j].count)
      ensures r.Ok? ==> var c := old(spaces)[id].count + PageCount(size);
        spaces[id].count == if c < USIZE then c else USIZE - 1
      ensures r.Ok? && flags.present && flags.frame == 0 ==>
        var root, base := RootOf(old(spaces)[id]), virt / PAGE_SIZE;
        forall q: nat :: base <= q < base + PageCount(size) ==>
          var frame := (phys + (q - base) * PAGE_SIZE) % USIZE / PAGE_SIZE % FRAMES;
          Lookup(vm.pmm.ram, root, q) ==
            Some(Word(true, flags.writable, flags.user, flags.low, frame, flags.high, flags.nx))
      ensures old(MapRefusal(spaces, id, caller, virt, phys, size)).None? ==>
        var root, base, n := RootOf(old(spaces)[id]), virt / PAGE_SIZE, PageCount(size);
        && Grows(old(vm.pmm.ram), old(vm.lvl), vm.pmm.ram, vm.lvl, root)
        && (r.Err? ==> r.error == AlreadyMapped && SameLookups(old(vm.pmm.ram), vm.pmm.ram, old(vm.lvl)))
        && (r.Ok? <==> root != 0 && Fits(old(vm.pmm.ram), root, virt, n, |old(vm.pmm.Free())|))
        && (r.Ok? ==> |vm.pmm.Free()| == |old(vm.pmm.Free())| - Needed(old(vm.pmm.ram), root, virt, n))
        && (r.Err? && flags.present ==> spaces == old(spaces))
        && (r.Ok? ==> old(spaces)[id].pml4 != 0 && AllEmpty(old(vm.pmm.ram), root, base, n))
        && (r.Ok? ==> Patched(old(vm.pmm.ram), vm.pmm.ram, old(vm.lvl), root, base, MapWords(phys, n, flags)))
        && (r.Ok? ==> spaces == Counted(old(spaces), id, SaturatingAdd(old(spaces)[id].count, n)))
      ensures flags.present && id in spaces && Exact(old(View()), id) ==> Exact(View(), id)
    {
      hide WellFormed, UserReach, Lookup, P.FreeSet, SameLookups, Patched, Grows, MapWords, Paid, UserPages, AllEmpty;
      hide Undisturbed, Step, Exact, Registered, Fits, Needed, V.Housed;
      ghost var w, f := View(), vm.pmm.Free();
      RegisteredRoots(w.spaces, w.lvl, vm.active, nextId);
      SameRefl(w.ram, w.lvl);
      V.PaidRefl(w.lvl, f);
      UndisturbedRefl(w.ram, w.lvl);
      RefusedStep(w);
      var refusal := MapRefusal(spaces, id, caller, virt, phys, size);
      if refusal.Some? {
        return Err(refusal.value);
      }
      RegionInUserHalf(virt, size);
      var pml4, n := spaces[id].pml4, PageCount(size);
      ghost var root, base := RootOf(spaces[id]), virt / PAGE_SIZE;
      var ok, left := MapRun(pml4, virt, phys, n, flags);
      GrowsRoots(w.ram, w.lvl, vm.pmm.ram, vm.lvl, root);
      GrowsUndisturbed(w.ram, w.lvl, vm.pmm.ram, vm.lvl, root);
      RegisteredGrows(spaces, w.lvl, vm.lvl, vm.active, nextId);
      RegisteredCounted(spaces, vm.lvl, vm.active, nextId, id);
      if !ok {
        if left > 0 {
          spaces := spaces[id := spaces[id].(count := SaturatingAdd(spaces[id].count, left))];
        }
        BlankStep(w, View(), id, virt, n, |f|, left);
        return Err(AlreadyMapped);
      }
      spaces := spaces[id := spaces[id].(count := SaturatingAdd(spaces[id].count, n))];
      MapWordsPresent(phys, n, flags);
      MapWordsMeaning(w.ram, vm.pmm.ram, w.lvl, root, base, phys, n, flags);
      LowAddr(virt);
      FitsEmpty(w.ram, root, virt, n, |f|);
      if flags.present {
        FillStep(w, View(), id, base, MapWords(phys, n, flags));
      } else {
        EmptiedSame(w.ram, vm.pmm.ram, w.lvl, root, base, n);
        ReachIs(w.ram, root, virt, n, |f|, n);
        BlankStep(w, View(), id, virt, n, |f|, n);
      }
      return Ok(());
    }

    /** `unmap_region`: clears every page of the region and lowers the count by the
        region's size, mapped or not. An exact count stays exact if and only if the
        whole region was mapped or held all that was mapped. */
    method UnmapRegion(id: nat, caller: nat, virt: Usize, size: Usize) returns (r: Result<()>)
      requires Valid()
      modifies `spaces, vm`lvl, vm.pmm, vm.pmm.bitmap
      ensures Valid() && vm.pmm.total == old(vm.pmm.total)
      ensures vm.lvl == old(vm.lvl) && vm.pmm.Free() == old(vm.pmm.Free())
      ensures Undisturbed(old(vm.pmm.ram), vm.lvl, vm.pmm.ram, vm.lvl)
      ensures r == if old(UnmapRefusal(spaces, id, caller, virt, size)).Some?
        then Err(old(UnmapRefusal(spaces, id, caller, virt, size)).value) else Ok(())
      ensures r.Ok? ==> id in old(spaces) && old(spaces)[id].owner == caller
      ensures id in old(spaces) && old(spaces)[id].owner != caller ==> r.Err? && View() == old(View())
      ensures r.Err? ==> View() == old(View())
      ensures spaces.Keys == old(spaces).Keys && forall j :: j in spaces ==>
        && spaces[j].pml4 == old(spaces)[j].pml4 && spaces[j].owner == old(spaces)[j].owner
        && (j != id ==> spaces[j].count == old(spaces)[j].count)
      ensures r.Ok? ==> var c, n := old(spaces)[id].count, PageCount(size);
        spaces[id].count == if c >= n then c - n else 0
      ensures r.Ok? && old(spaces)[id].pml4 != 0 ==>
        forall q: nat :: virt / PAGE_SIZE <= q < virt / PAGE_SIZE + PageCount(size) ==>
          Lookup(vm.pmm.ram, RootOf(old(spaces)[id]), q) == None
      ensures r.Ok? ==> id in old(spaces) && var c, n := old(spaces)[id].count, PageCount(size);
        spaces == Counted(old(spaces), id, Lowered(c, n))
      ensures Step(old(View()), View(), UnmapOp(old(View()), r, id, virt, size))
      ensures r.Ok? ==> old(spaces)[id].pml4 != 0 ==>
        var root, base, n := RootOf(old(spaces)[id]), virt / PAGE_SIZE, PageCount(size);
        && Grows(old(vm.pmm.ram), old(vm.lvl), vm.pmm.ram, vm.lvl, root)
        && Patched(old(vm.pmm.ram), vm.pmm.ram, vm.lvl, root, base, Nones(n))
        && var region, mapped := P.Range(base, n), UserPages(old(vm.pmm.ram), root);
        Exact(old(View()), id) ==> (Exact(View(), id) <==> region <= mapped || mapped <= region)
    {
      hide WellFormed, UserReach, Lookup, P.FreeSet, SameLookups, Patched, Grows, Nones, UserPages, P.Range;
      hide Undisturbed, Overlay, Emptied, Full, Vacant, V.Housed, Registered;
      ghost var w := View();
      RegisteredRoots(w.spaces, w.lvl, vm.active, nextId);
      SameRefl(w.ram, w.lvl);
      UndisturbedRefl(w.ram, w.lvl);
      var refusal := UnmapRefusal(spaces, id, caller, virt, size);
      if refusal.Some? {
        return Err(refusal.value);
      }
      RegionInUserHalf(virt, size);
      var pml4, n, c := spaces[id].pml4, PageCount(size), spaces[id].count;
      ghost var root, base := RootOf(spaces[id]), virt / PAGE_SIZE;
      LowAddr(virt);
      if pml4 != 0 {
        var _ := UnmapRun(pml4, virt, n);
        GrowsUndisturbed(w.ram, w.lvl, vm.pmm.ram, vm.lvl, root);
        UnmappedCount(w.ram, vm.pmm.ram, w.lvl, root, base, n);
        NonesMeaning(w.ram, vm.pmm.ram, w.lvl, root, base, n);
      }
      RegisteredCounted(spaces, vm.lvl, vm.active, nextId, id);
      spaces := spaces[id := spaces[id].(count := Lowered(c, n))];
      assert spaces == Counted(w.spaces, id, Lowered(c, n));
      return Ok(());
    }

    /** The query loop of `remap_region`: the words of the run, if all are mapped. */
    method QueryRun(pml4: Usize, virt: Usize, n: nat) returns (ws: Option<seq<Word>>)
      requires vm.Valid() && V.RootAddr(vm.lvl, pml4) && Aligned(virt)
      modifies vm`lvl, vm.pmm, vm.pmm.bitmap
      ensures vm.Valid() && vm.pmm.total == old(vm.pmm.total)
      ensures vm.pmm.ram == old(vm.pmm.ram) && vm.lvl == old(vm.lvl) && vm.pmm.Free() == old(vm.pmm.Free())
      ensures ws.Some? ==> (n > 0 ==> pml4 != 0) && Full(vm.pmm.ram, pml4 / PAGE_SIZE, virt, n)
      ensures ws.Some? ==> Somes(ws.value) == Reads(vm.pmm.ram, pml4 / PAGE_SIZE, virt, n)
      ensures ws.None? ==> pml4 == 0 || !Full(vm.pmm.ram, pml4 / PAGE_SIZE, virt, n)
    {
      hide WellFormed, UserReach, Lookup, PageNo, P.FreeSet;
      var found: seq<Word> := [];
      ghost var m, l := vm.pmm.ram, vm.lvl;
      for i := 0 to n
        invariant vm.Valid() && vm.pmm.total == old(vm.pmm.total)
        invariant vm.pmm.ram == m && vm.lvl == l && vm.pmm.Free() == old(vm.pmm.Free())
        invariant |found| == i && (i > 0 ==> pml4 != 0)
        invariant forall j :: 0 <= j < i ==> Lookup(m, pml4 / PAGE_SIZE, PageNo(virt, j)) == Some(found[j])
      {
        WrapAligned(virt, i);
        PageNoAt(virt, i);
        var e := vm.QueryMappingInPml4(pml4, (virt + i * PAGE_SIZE) % USIZE);
        if e.Err? {
          return None;
        }
        found := found + [e.value.1];
      }
      return Some(found);
    }

    /** The second mapping loop of `remap_region`: maps each word, address bits
        included, at the next page; stops at the first page that fails. */
    method MapList(pml4: Usize, virt: Usize, ws: seq<Word>) returns (k: nat)
      requires vm.Valid() && pml4 != 0 && V.RootAddr(vm.lvl, pml4) && Aligned(virt)
      requires forall i :: 0 <= i < |ws| ==> ws[i].present
      modifies vm`lvl, vm.pmm, vm.pmm.bitmap
      ensures vm.Valid() && vm.pmm.total == old(vm.pmm.total) && k <= |ws|
      ensures Paid(old(vm.lvl), old(vm.pmm.Free()), vm.lvl, vm.pmm.Free())
      ensures Grows(old(vm.pmm.ram), old(vm.lvl), vm.pmm.ram, vm.lvl, pml4 / PAGE_SIZE)
      ensures Overlay(old(vm.pmm.ram), vm.pmm.ram, old(vm.lvl), pml4 / PAGE_SIZE, Written(virt, Somes(ws), k))
      ensures Fits(old(vm.pmm.ram), pml4 / PAGE_SIZE, virt, k, |old(vm.pmm.Free())|)
      ensures |ws| <= PAGES ==> k == Reach(old(vm.pmm.ram), pml4 / PAGE_SIZE, virt, |ws|, |old(vm.pmm.Free())|)
    {
      hide Grows, Overlay, LookupSet, SameLookups, WellFormed, UserReach, Lookup, Missing, Paid, Written, SetWord;
      hide PageNo, P.FreeSet, Tab, Needed, Paved, Fits;
      ghost var m, l, r, f := vm.pmm.ram, vm.lvl, pml4 / PAGE_SIZE, vm.pmm.Free();
      ghost var os := Somes(ws);
      GrowsRefl(m, l, r);
      V.PaidRefl(l, f);
      OverlayNone(m, l, r);
      WrittenStep(virt, os, 0);
      PavedNone(m, r, virt);
      FitsNone(m, r, virt, |f|);
      k := 0;
      while k < |ws|
        invariant k <= |ws| && vm.Valid() && vm.pmm.total == old(vm.pmm.total) && Paid(l, f, vm.lvl, vm.pmm.Free())
        invariant Grows(m, l, vm.pmm.ram, vm.lvl, r) && Overlay(m, vm.pmm.ram, l, r, Written(virt, os, k))
        invariant Paved(m, vm.pmm.ram, r, virt, k) && |vm.pmm.Free()| == |f| - Needed(m, r, virt, k)
        invariant Fits(m, r, virt, k, |f|)
      {
        ghost var mi, li, fi := vm.pmm.ram, vm.lvl, vm.pmm.Free();
        WrapAligned(virt, k);
        PageNoAt(virt, k);
        GrowsRoots(m, l, mi, li, r);
        SetWordMeaning(AddrOf(ws[k]), ws[k]);
        WrittenMiss(m, mi, l, r, virt, os, k);
        var v := (virt + k * PAGE_SIZE) % USIZE;
        NextFits(m, mi, r, virt, k, |f|, |fi|, pml4, v, AddrOf(ws[k]));
        var e := vm.MapPageInPml4(pml4, v, AddrOf(ws[k]), ws[k]);
        GrowsTransitive(m, l, mi, li, vm.pmm.ram, vm.lvl, r);
        PaidTransitive(l, f, li, fi, vm.lvl, vm.pmm.Free());
        if e.Err? {
          if |ws| <= PAGES { ReachIs(m, r, virt, |ws|, |f|, k); }
          OverlaySame(m, l, mi, li, vm.pmm.ram, r, Written(virt, os, k));
          return;
        }
        OverlayStep(m, l, mi, li, vm.pmm.ram, r, Written(virt, os, k), PageNo(virt, k), Some(ws[k]));
        WrittenStep(virt, os, k);
        PaveStep(m, mi, li, fi, vm.pmm.ram, vm.lvl, vm.pmm.Free(), r, virt, k);
        k := k + 1;
      }
      ReachIs(m, r, virt, |ws|, |f|, k);
    }

    /** `remap_region`, for ranges anywhere in the address space. It is refused unless the
        whole old range is mapped. When it succeeds every new page holds the exact entry of
        its old page, old pages outside the new range are unmapped and nothing else moves;
        when a new page fails, only a prefix has moved. Inside the lower half that is a
        step of one space. */
    method RemapRegion(id: nat, caller: nat, from: Usize, to: Usize, size: Usize) returns (r: Result<()>)
      requires Valid()
      modifies vm`lvl, vm.pmm, vm.pmm.bitmap
      ensures Valid() && vm.pmm.total == old(vm.pmm.total)
      ensures Paid(old(vm.lvl), old(vm.pmm.Free()), vm.lvl, vm.pmm.Free())
      ensures r.Ok? ==> id in old(spaces) && old(spaces)[id].owner == caller
      ensures id in old(spaces) && old(spaces)[id].owner != caller ==> r.Err? && View() == old(View())
      ensures RemapRefusal(spaces, id, caller, from, to, size).Some? ==>
        r == Err(RemapRefusal(spaces, id, caller, from, to, size).value) && View() == old(View())
      ensures r == Err(NotMapped) ==> View() == old(View())
      ensures r == Err(NotMapped) || RemapRefusal(spaces, id, caller, from, to, size).Some? ==>
        Step(old(View()), View(), Refused)
      ensures RemapRefusal(spaces, id, caller, from, to, size).None? ==>
        var root, n := RootOf(spaces[id]), PageCount(size);
        && (r.Ok? || r.error in {NotMapped, AlreadyMapped})
        && (r == Err(NotMapped) <==> spaces[id].pml4 == 0 || !Full(old(vm.pmm.ram), root, from, n))
        && (r.Ok? ==> Roomy(old(vm.pmm.ram), root, from, to, n, n, |old(vm.pmm.Free())|))
        && Grows(old(vm.pmm.ram), old(vm.lvl), vm.pmm.ram, vm.lvl, root)
        && (r.Ok? ==> Relocates(old(View()), View(), root, from, to, n, n))
        && (r == Err(AlreadyMapped) ==>
              exists k :: 0 <= k < n && Relocates(old(View()), View(), root, from, to, n, k)
                && Roomy(old(vm.pmm.ram), root, from, to, n, k, |old(vm.pmm.Free())|)
                && !Roomy(old(vm.pmm.ram), root, from, to, n, k + 1, |old(vm.pmm.Free())|))
        && (r == Err(AlreadyMapped) ==> !Roomy(old(vm.pmm.ram), root, from, to, n, n, |old(vm.pmm.Free())|))
      ensures RemapRefusal(spaces, id, caller, from, to, size).None? && r != Err(NotMapped) ==>
        var n, free := PageCount(size), |old(vm.pmm.Free())|;
        PageOf(from) + n <= USER_PAGES && PageOf(to) + n <= USER_PAGES ==>
          exists k :: 0 <= k <= n && Step(old(View()), View(), Shifted(id, from, to, n, k, free))
    {
      hide Grows, Overlay, SameLookups, WellFormed, UserReach, Lookup, Missing, Paid, Emptied, Written, Somes, Reads;
      hide Full;
      hide Registered, Vacant, Patched, Step, Relocates, Roomy, Fits, Needed, PageNo, P.FreeSet;
      ghost var w, f := View(), vm.pmm.Free();
      V.PaidRefl(w.lvl, f);
      RefusedStep(w);
      RegisteredRoots(spaces, w.lvl, vm.active, nextId);
      var refusal := RemapRefusal(spaces, id, caller, from, to, size);
      if refusal.Some? {
        return Err(refusal.value);
      }
      var pml4, n := spaces[id].pml4, PageCount(size);
      ghost var root := RootOf(spaces[id]);
      GrowsRefl(w.ram, w.lvl, root);
      var q := QueryRun(pml4, from, n);
      if q.None? {
        return Err(NotMapped);
      }
      PageCountPositive(size);
      var ws := q.value;
      ReadsFull(w.ram, root, from, n, ws);
      var _ := UnmapRun(pml4, from, n);
      ghost var m1 := vm.pmm.ram;
      var k := MapList(pml4, to, ws);
      GrowsTransitive(w.ram, w.lvl, m1, w.lvl, vm.pmm.ram, vm.lvl, root);
      GrowsRoots(w.ram, w.lvl, vm.pmm.ram, vm.lvl, root);
      RegisteredGrows(spaces, w.lvl, vm.lvl, vm.active, nextId);
      FullBound(w.ram, w.lvl, root, from, n);
      RoomyRun(w.ram, m1, w.lvl, root, from, to, n, |f|, k);
      RelocateRun(w, View(), m1, root, from, to, n, k);
      if PageOf(from) + n <= USER_PAGES && PageOf(to) + n <= USER_PAGES {
        ShiftStep(w, View(), id, from, to, n, k, |f|);
      }
      if k < n {
        return Err(AlreadyMapped);
      }
      return Ok(());
    }
  }

  lemma PatchOutside(m: Ram, m': Ram, lvl: Levels, r: nat, base: nat, ws: seq<Option<Word>>, p: nat)
    requires Patched(m, m', lvl, r, base, ws) && Root(lvl, r) && p < PAGES && !(base <= p < base + |ws|)
    ensures Lookup(m', r, p) == Lookup(m, r, p)
  {
  }

  lemma FitsEmpty(m: Ram, r: nat, virt: Usize, n: nat, free: nat)
    requires Aligned(virt) && PageOf(virt) + n <= USER_PAGES && Fits(m, r, virt, n, free)
    ensures AllEmpty(m, r, PageOf(virt), n)
  {
    hide Lookup, Needed;
    LowRun(virt, n);
    hide PageNo;
    forall q: nat | PageOf(virt) <= q < PageOf(virt) + n ensures Lookup(m, r, q).None? {
      assert PageNo(virt, q - PageOf(virt)) == q;
    }
  }

  lemma NonesNone()
    ensures Nones(0) == []
  {
  }

  lemma MapWordsPresent(phys: Usize, n: nat, flags: Word)
    ensures flags.present ==> forall i :: 0 <= i < n ==> MapWords(phys, n, flags)[i].Some?
    ensures !flags.present ==> MapWords(phys, n, flags) == Nones(n)
  {
  }

  /** Pages mapped with pure flags translate to consecutive frames with those flags. */
  lemma MapWordsMeaning(m: Ram, m': Ram, lvl: Levels, r: nat, base: nat, phys: Usize, n: nat, flags: Word)
    requires Patched(m, m', lvl, r, base, MapWords(phys, n, flags)) && Root(lvl, r) && base + n <= PAGES
    ensures flags.present && flags.frame == 0 ==> forall q: nat :: base <= q < base + n ==>
      var frame := (phys + (q - base) * PAGE_SIZE) % USIZE / PAGE_SIZE % FRAMES;
      Lookup(m', r, q) == Some(Word(true, flags.writable, flags.user, flags.low, frame, flags.high, flags.nx))
  {
    hide Lookup, SetWord;
    if flags.present && flags.frame == 0 {
      forall q: nat | base <= q < base + n
        ensures var frame := (phys + (q - base) * PAGE_SIZE) % USIZE / PAGE_SIZE % FRAMES;
          Lookup(m', r, q) == Some(Word(true, flags.writable, flags.user, flags.low, frame, flags.high, flags.nx))
      {
        SetWordMeaning((phys + (q - base) * PAGE_SIZE) % USIZE, flags);
        assert Lookup(m', r, q) == MapWords(phys, n, flags)[q - base];
      }
    }
  }

  lemma NonesMeaning(m: Ram, m': Ram, lvl: Levels, r: nat, base: nat, n: nat)
    requires Patched(m, m', lvl, r, base, Nones(n)) && Root(lvl, r) && base + n <= PAGES
    ensures forall q: nat :: base <= q < base + n ==> Lookup(m', r, q) == None
  {
    hide Lookup;
  }

  lemma MapWordsNone(phys: Usize, flags: Word)
    ensures MapWords(phys, 0, flags) == []
  {
  }

  lemma MapWordsMapped(m: Ram, m': Ram, lvl: Levels, r: nat, virt: Usize, phys: Usize, n: nat, flags: Word)
    requires Aligned(virt) && Root(lvl, r) && PageOf(virt) + n <= USER_PAGES
    requires Patched(m, m', lvl, r, PageOf(virt), MapWords(phys, n, flags))
    ensures if flags.present then Full(m', r, virt, n) else Vacant(m', r, virt, n)
  {
    hide Lookup, SetWord;
    LowRun(virt, n);
    hide PageNo;
    forall i | 0 <= i < n ensures Lookup(m', r, PageNo(virt, i)).Some? == flags.present {
      assert Lookup(m', r, PageOf(virt) + i) == MapWords(phys, n, flags)[i];
      MapWordsPresent(phys, n, flags);
    }
  }

  lemma LowAddr(virt: Usize)
    ensures virt / PAGE_SIZE < PAGES ==> PageOf(virt) == virt / PAGE_SIZE
  {
  }

  lemma EmptiedStep(virt: Usize, n: nat)
    ensures Emptied(virt, 0) == map[]
    ensures Emptied(virt, n + 1) == Emptied(virt, n)[PageNo(virt, n) := None]
  {
  }

  /** The next page of a run being emptied is still as it was. */
  lemma EmptiedMiss(m: Ram, m': Ram, lvl: Levels, r: nat, virt: Usize, i: nat)
    requires Overlay(m, m', lvl, r, Emptied(virt, i)) && Root(lvl, r) && Aligned(virt)
    ensures i < PAGES ==> Lookup(m', r, PageNo(virt, i)) == Lookup(m, r, PageNo(virt, i))
    ensures Full(m, r, virt, i + 1) <==> Full(m, r, virt, i) && Lookup(m, r, PageNo(virt, i)).Some?
    ensures Vacant(m, r, virt, i + 1) <==> Vacant(m, r, virt, i) && Lookup(m, r, PageNo(virt, i)).None?
  {
    hide Lookup, Overlay;
    if i < PAGES {
      EmptiedAt(virt, i);
      forall j | 0 <= j < i ensures PageNo(virt, j) != PageNo(virt, i) {
        PageNoInjective(virt, j, i);
      }
      OverlayAt(m, m', lvl, r, Emptied(virt, i), PageNo(virt, i));
    }
  }

  /** Each space is registered under an id already given out and has a root of its own. */
  ghost predicate Registered(spaces: Spaces, lvl: Levels, active: nat, nextId: nat) {
    && (forall id :: id in spaces ==> id < nextId && Aligned(spaces[id].pml4) && Root(lvl, RootOf(spaces[id])))
    && (forall id :: id in spaces ==> active != 0 && spaces[id].pml4 != active)
    && (forall id, jd :: id in spaces && jd in spaces && id != jd ==> spaces[id].pml4 != spaces[jd].pml4)
  }

  lemma RegisteredRoots(spaces: Spaces, lvl: Levels, active: nat, nextId: nat)
    requires Registered(spaces, lvl, active, nextId)
    ensures forall id :: id in spaces ==> Aligned(spaces[id].pml4) && Root(lvl, RootOf(spaces[id]))
  {
  }

  lemma RegisteredGrows(spaces: Spaces, lvl: Levels, lvl': Levels, active: nat, nextId: nat)
    requires Registered(spaces, lvl, active, nextId) && forall s :: Root(lvl, s) ==> Root(lvl', s)
    ensures Registered(spaces, lvl', active, nextId)
  {
  }

  lemma RegisteredCounted(spaces: Spaces, lvl: Levels, active: nat, nextId: nat, id: nat)
    requires Registered(spaces, lvl, active, nextId) && id in spaces
    ensures forall count: Usize :: Registered(Counted(spaces, id, count), lvl, active, nextId)
  {
  }

  // ----- moving a run of pages -----

  function Somes(ws: seq<Word>): (os: seq<Option<Word>>)
    ensures |os| == |ws| && forall i :: 0 <= i < |ws| ==> os[i] == Some(ws[i])
  {
    seq(|ws|, i requires 0 <= i < |ws| => Some(ws[i]))
  }

  /** What a run of pages translates to. */
  function Reads(m: Ram, r: nat, virt: Usize, n: nat): (os: seq<Option<Word>>)
    ensures |os| == n && forall i :: 0 <= i < n ==> os[i] == Lookup(m, r, PageNo(virt, i))
  {
    seq(n, i requires 0 <= i < n => Lookup(m, r, PageNo(virt, i)))
  }

  lemma ReadsFull(m: Ram, r: nat, virt: Usize, n: nat, ws: seq<Word>)
    requires Full(m, r, virt, n) && Somes(ws) == Reads(m, r, virt, n)
    ensures |ws| == n && forall i :: 0 <= i < n ==> ws[i].present
  {
    forall i | 0 <= i < n ensures ws[i].present {
      assert Somes(ws)[i] == Some(ws[i]);
      assert Reads(m, r, virt, n)[i] == Lookup(m, r, PageNo(virt, i));
    }
  }

  lemma WrittenStep(virt: Usize, ws: seq<Option<Word>>, k: nat)
    requires k <= |ws|
    ensures Written(virt, ws, 0) == map[]
    ensures k < |ws| ==> Written(virt, ws, k + 1) == Written(virt, ws, k)[PageNo(virt, k) := ws[k]]
  {
  }

  /** A page that is empty while a run is being written was empty before. */
  lemma WrittenMiss(m: Ram, m': Ram, lvl: Levels, r: nat, virt: Usize, ws: seq<Option<Word>>, k: nat)
    requires k < |ws| && (forall i :: 0 <= i < |ws| ==> ws[i].Some?) && Root(lvl, r)
    requires Overlay(m, m', lvl, r, Written(virt, ws, k)) && Aligned(virt)
    ensures Lookup(m', r, PageNo(virt, k)).None? ==> Lookup(m, r, PageNo(virt, k)).None?
    ensures k < PAGES ==> Lookup(m', r, PageNo(virt, k)) == Lookup(m, r, PageNo(virt, k))
  {
    hide Lookup, Overlay;
    WrittenSome(virt, ws, k);
    if k < PAGES {
      WrittenAt(virt, ws, k);
      forall j | 0 <= j < k ensures PageNo(virt, j) != PageNo(virt, k) { PageNoInjective(virt, j, k); }
    }
    OverlayAt(m, m', lvl, r, Written(virt, ws, k), PageNo(virt, k));
  }

  /** The old pages, emptied, and the first `k` new ones with what the old ones held. */
  function Relocated(m: Ram, r: nat, from: Usize, to: Usize, n: nat, k: nat): map<nat, Option<Word>>
    requires k <= n
  {
    Emptied(from, n) + Written(to, Reads(m, r, from, n), k)
  }

  /** The first `k` new pages are empty or among the old ones. */
  ghost predicate Placeable(m: Ram, r: nat, from: Usize, to: Usize, n: nat, k: nat) {
    forall i :: 0 <= i < k ==> PageNo(to, i) in Emptied(from, n) || Lookup(m, r, PageNo(to, i)).None?
  }

  /** Moving the first `k` pages meets no page that stays, and the free frames last. */
  ghost predicate Roomy(m: Ram, r: nat, from: Usize, to: Usize, n: nat, k: nat, free: nat) {
    Placeable(m, r, from, to, n, k) && Needed(m, r, to, k) <= free
  }

  /** Once the old range is emptied, the new one can be mapped as far as there is room. */
  lemma RoomyIs(m: Ram, m1: Ram, lvl: Levels, r: nat, from: Usize, to: Usize, n: nat, k: nat, free: nat)
    requires WellFormed(m1, lvl) && Root(lvl, r) && Grows(m, lvl, m1, lvl, r)
    requires Overlay(m, m1, lvl, r, Emptied(from, n))
    ensures Fits(m1, r, to, k, free) <==> Roomy(m, r, from, to, n, k, free)
  {
    hide Lookup, Overlay, Emptied, PageNo, Needed, WellFormed, Grows;
    NeededSame(m, m1, lvl, r, to, k);
    EmptiedAt(from, n);
    forall i | 0 <= i < k
      ensures Lookup(m1, r, PageNo(to, i)).None? <==>
        PageNo(to, i) in Emptied(from, n) || Lookup(m, r, PageNo(to, i)).None?
    {
      OverlayAt(m, m1, lvl, r, Emptied(from, n), PageNo(to, i));
    }
  }

  lemma RoomyRun(m: Ram, m1: Ram, lvl: Levels, r: nat, from: Usize, to: Usize, n: nat, free: nat, k: nat)
    requires WellFormed(m1, lvl) && Root(lvl, r) && Grows(m, lvl, m1, lvl, r)
    requires Overlay(m, m1, lvl, r, Emptied(from, n)) && k == Reach(m1, r, to, n, free)
    ensures Vacant(m1, r, to, k) && Roomy(m, r, from, to, n, k, free)
    ensures k < n ==> !Roomy(m, r, from, to, n, k + 1, free)
    ensures k == n <==> Roomy(m, r, from, to, n, n, free)
  {
    hide Lookup, Overlay, Emptied, PageNo, Needed, WellFormed, Grows, Roomy;
    RoomyIs(m, m1, lvl, r, from, to, n, k, free);
    RoomyIs(m, m1, lvl, r, from, to, n, k + 1, free);
    RoomyIs(m, m1, lvl, r, from, to, n, n, free);
    ReachIs(m1, r, to, n, free, k);
  }

  /** `k` of the `n` pages moved under root `r`. */
  ghost predicate Relocates(w: World, w': World, r: nat, from: Usize, to: Usize, n: nat, k: nat)
    requires k <= n
  {
    && Full(w.ram, r, from, n) && Placeable(w.ram, r, from, to, n, k)
    && Overlay(w.ram, w'.ram, w.lvl, r, Relocated(w.ram, r, from, to, n, k))
  }

  lemma RelocateRun(w: World, w': World, m1: Ram, r: nat, from: Usize, to: Usize, n: nat, k: nat)
    requires WellFormed(w.ram, w.lvl) && Root(w.lvl, r) && Grows(w.ram, w.lvl, m1, w.lvl, r) && k <= n
    requires Full(w.ram, r, from, n) && Overlay(w.ram, m1, w.lvl, r, Emptied(from, n))
    requires Overlay(m1, w'.ram, w.lvl, r, Written(to, Reads(w.ram, r, from, n), k)) && Vacant(m1, r, to, k)
    ensures Relocates(w, w', r, from, to, n, k)
  {
    hide Lookup, Overlay;
    OverlayThen(w.ram, w.lvl, m1, w.lvl, w'.ram, r, Emptied(from, n), Written(to, Reads(w.ram, r, from, n), k));
    forall i | 0 <= i < k ensures PageNo(to, i) in Emptied(from, n) || Lookup(w.ram, r, PageNo(to, i)).None? {
      OverlayAt(w.ram, m1, w.lvl, r, Emptied(from, n), PageNo(to, i));
    }
  }

  /** The first `k` pages from `b` on hold what the pages from `a` on held, the
      other pages of the `n` from `a` on are empty, and nothing else moved. */
  ghost predicate Moved(m: Ram, m': Ram, lvl: Levels, r: nat, a: nat, b: nat, n: nat, k: nat) {
    forall s: nat, q: nat :: Root(lvl, s) && q < PAGES ==> Lookup(m', s, q) == AfterMove(m, r, a, b, n, k, s, q)
  }

  function AfterMove(m: Ram, r: nat, a: nat, b: nat, n: nat, k: nat, s: nat, q: nat): Option<Word> {
    if s == r && b <= q < b + k then Lookup(m, r, a + (q - b))
    else if s == r && a <= q < a + n then None
    else Lookup(m, s, q)
  }

  /** Page `p` is mapped and not itself about to be moved. */
  ghost predicate Clash(m: Ram, r: nat, a: nat, n: nat, p: nat) {
    Lookup(m, r, p).Some? && !(a <= p < a + n)
  }

  /** Query, unmap and map in sequence amount to a simultaneous move, overlap included. */
  lemma MoveRun(w: World, w': World, r: nat, from: Usize, to: Usize, n: nat, k: nat)
    requires WellFormed(w.ram, w.lvl) && Root(w.lvl, r) && Aligned(from) && Aligned(to) && k <= n
    requires PageOf(from) + n <= USER_PAGES && PageOf(to) + n <= USER_PAGES
    requires Relocates(w, w', r, from, to, n, k)
    ensures Moved(w.ram, w'.ram, w.lvl, r, PageOf(from), PageOf(to), n, k) && AllMapped(w.ram, r, PageOf(from), n)
    ensures forall q: nat :: PageOf(to) <= q < PageOf(to) + k ==> !Clash(w.ram, r, PageOf(from), n, q)
  {
    hide Lookup, Emptied, Written, Reads, Full, Placeable, PageNo;
    var a, b := PageOf(from), PageOf(to);
    RelocatedAt(w.ram, r, from, to, n, k);
    forall s: nat, q: nat | Root(w.lvl, s) && q < PAGES
      ensures Lookup(w'.ram, s, q) == AfterMove(w.ram, r, a, b, n, k, s, q)
    {
      if q in Relocated(w.ram, r, from, to, n, k) && s != r {
        LowerHalfPrivate(w.ram, w.lvl, r, s, q);
      }
    }
  }

  /** In the lower half the relocated pages are the two runs, counted up. */
  lemma RelocatedAt(m: Ram, r: nat, from: Usize, to: Usize, n: nat, k: nat)
    requires Aligned(from) && Aligned(to) && k <= n
    requires PageOf(from) + n <= USER_PAGES && PageOf(to) + n <= USER_PAGES
    requires Full(m, r, from, n) && Placeable(m, r, from, to, n, k)
    ensures var a, b, ws := PageOf(from), PageOf(to), Relocated(m, r, from, to, n, k);
      && (forall q :: q in ws <==> a <= q < a + n || b <= q < b + k)
      && (forall q :: q in ws ==> ws[q] == if b <= q < b + k then Lookup(m, r, a + (q - b)) else None)
      && AllMapped(m, r, a, n) && (forall q: nat :: b <= q < b + k ==> !Clash(m, r, a, n, q))
  {
    hide Lookup, Emptied, Written, Reads;
    var a, b, os := PageOf(from), PageOf(to), Reads(m, r, from, n);
    EmptiedRun(from, n);
    WrittenRun(to, os, k);
    LowRun(from, n);
    LowRun(to, n);
    hide PageNo;
    forall q: nat | a <= q < a + n ensures Lookup(m, r, q).Some? {
      assert PageNo(from, q - a) == q;
    }
    forall q: nat | b <= q < b + k ensures !Clash(m, r, a, n, q) && os[q - b] == Lookup(m, r, a + (q - b)) {
      assert PageNo(to, q - b) == q && PageNo(from, q - b) == a + (q - b);
    }
  }

  /** A move keeps the number of mapped user pages exactly when it is complete. */
  lemma MovedCount(m: Ram, m': Ram, lvl: Levels, r: nat, a: nat, b: nat, n: nat, k: nat)
    requires Moved(m, m', lvl, r, a, b, n, k) && Root(lvl, r) && AllMapped(m, r, a, n) && k <= n
    requires a + n <= USER_PAGES && b + n <= USER_PAGES
    requires forall q: nat :: b <= q < b + k ==> !Clash(m, r, a, n, q)
    ensures |UserPages(m', r)| == |UserPages(m, r)| - n + k
  {
    var u, u', g, h := UserPages(m, r), UserPages(m', r), P.Range(a, n), P.Range(b, k);
    hide Lookup;
    assert g <= u;
    forall p: nat | p < USER_PAGES ensures p in u' <==> p in (u - g) + h {
      if b <= p < b + k {
        assert Lookup(m, r, a + (p - b)).Some?;
      }
      assert Lookup(m', r, p) == AfterMove(m, r, a, b, n, k, r, p);
    }
    assert u' == (u - g) + h;
    forall p | p in h ensures p !in u - g {
      assert !Clash(m, r, a, n, p);
    }
    assert (u - g) * h == {};
    P.RangeSize(a, n);
    P.RangeSize(b, k);
    P.SubsetSize(g, u);
  }

  lemma PageCountPositive(size: Usize)
    requires 0 < size <= KERNEL_BASE
    ensures PageCount(size) > 0
  {
  }

  lemma RegisteredDrop(spaces: Spaces, lvl: Levels, active: nat, nextId: nat, id: nat)
    requires Registered(spaces, lvl, active, nextId) && id in spaces && Aligned(active)
    ensures Registered(spaces - {id}, lvl - {RootOf(spaces[id])}, active, nextId)
    ensures active != 0 && active / PAGE_SIZE != RootOf(spaces[id])
  {
  }

  lemma RegisteredAdd(spaces: Spaces, lvl: Levels, active: nat, nextId: nat, s: Space)
    requires Registered(spaces, lvl, active, nextId) && Aligned(s.pml4) && RootOf(s) !in lvl
    requires active != 0 && Root(lvl, active / PAGE_SIZE)
    ensures nextId !in spaces && Registered(spaces[nextId := s], lvl[RootOf(s) := 4], active, nextId + 1)
  {
  }

  lemma DropReach(m: Ram, lvl: Levels, d: nat)
    requires UserReach(m, lvl)
    ensures UserReach(m, lvl - {d})
  {
    assert forall s :: Root(lvl - {d}, s) ==> Root(lvl, s);
  }

  /** The count says how many user pages are mapped. */
  ghost predicate Exact(w: World, id: nat)
    requires id in w.spaces
  {
    w.spaces[id].count == |UserPages(w.ram, RootOf(w.spaces[id]))|
  }

  lemma MappedCount(m: Ram, m': Ram, lvl: Levels, r: nat, base: nat, ws: seq<Option<Word>>)
    requires Patched(m, m', lvl, r, base, ws) && Root(lvl, r) && base + |ws| <= USER_PAGES
    requires AllEmpty(m, r, base, |ws|) && forall i :: 0 <= i < |ws| ==> ws[i].Some?
    ensures |UserPages(m', r)| == SaturatingAdd(|UserPages(m, r)|, |ws|)
  {
    PagesAdded(m, m', lvl, r, base, ws);
    UserPagesBound(m', r);
  }

  lemma UnmappedCount(m: Ram, m': Ram, lvl: Levels, r: nat, base: nat, n: nat)
    requires Patched(m, m', lvl, r, base, Nones(n)) && Root(lvl, r) && base + n <= USER_PAGES
    ensures var c := |UserPages(m, r)|;
      |UserPages(m', r)| == Lowered(c, n) <==>
        P.Range(base, n) <= UserPages(m, r) || UserPages(m, r) <= P.Range(base, n)
  {
    PagesRemoved(m, m', lvl, r, base, n);
    var u, g := UserPages(m, r), P.Range(base, n);
    P.RangeSize(base, n);
    SplitSize(g, u);
    assert g * u == u * g;
  }

  /** Root `d` was added: its lower half is empty, its upper half is `src`'s. */
  ghost predicate NewRoot(m: Ram, m': Ram, lvl: Levels, src: nat, d: nat) {
    && SameLookups(m, m', lvl)
    && forall q: nat :: q < PAGES ==> Lookup(m', d, q) == if q < USER_PAGES then None else Lookup(m, src, q)
  }

  lemma CloneNewRoot(m: Ram, m1: Ram, lvl: Levels, src: nat, d: nat)
    requires WellFormed(m1, lvl) && SameLookups(m, m1, lvl) && Root(lvl, src) && d < |m1| && d !in lvl && src < |m1|
    ensures NewRoot(m, m1[d := Cloned(m1[src])], lvl, src, d)
  {
    CloneRoot(m1, lvl, src, d);
  }

  // ----- runs -----

  /** What isolation is about: memory, tables, spaces and the kernel's root. */
  datatype World = World(ram: Ram, lvl: Levels, spaces: Spaces, kernel: nat)

  /** What a step did: it added or removed a space; filled, cleared or moved pages of one;
      mapped pages without the present flag, or unmapped pages of a space whose root is
      frame 0, which changes its count alone; counted pages that it took back; changed no
      translation; or mapped something for the kernel. `free` is the number of frames that were free. */
  datatype Op =
    | Added(id: nat) | Removed(id: nat)
    | Filled(id: nat, base: nat, ws: seq<Option<Word>>)
    | Blanked(id: nat, virt: Usize, n: nat, free: nat)
    | Cleared(id: nat, base: nat, n: nat)
    | Lessened(id: nat, n: nat)
    | TakenBack(id: nat, pages: nat)
    | Shifted(id: nat, from: Usize, to: Usize, n: nat, k: nat, free: nat)
    | Refused | Foreign

  predicate About(op: Op, id: nat) { !op.Refused? && !op.Foreign? && op.id == id }

  function MapOp<T>(
    r: Result<T>, refusal: Option<Error>, id: nat, virt: Usize, phys: Usize, size: Usize, flags: Word, free: nat): Op
  {
    if refusal.Some? || (r.Err? && flags.present) then Refused
    else if flags.present then Filled(id, virt / PAGE_SIZE, MapWords(phys, PageCount(size), flags))
    else Blanked(id, virt, PageCount(size), free)
  }

  function UnmapOp(w: World, r: Result<()>, id: nat, virt: Usize, size: Usize): Op {
    if r.Err? || id !in w.spaces then Refused
    else if w.spaces[id].pml4 != 0 then Cleared(id, virt / PAGE_SIZE, PageCount(size))
    else Lessened(id, PageCount(size))
  }

  ghost predicate Sound(w: World) {
    && Root(w.lvl, w.kernel)
    && (forall id :: id in w.spaces ==> Root(w.lvl, RootOf(w.spaces[id])) && RootOf(w.spaces[id]) != w.kernel)
    && (forall id, jd :: id in w.spaces && jd in w.spaces && id != jd ==> RootOf(w.spaces[id]) != RootOf(w.spaces[jd]))
  }

  /** Only lower-half translations of root `r` may differ. */
  ghost predicate OnlyLower(m: Ram, m': Ram, lvl: Levels, r: nat) {
    forall s: nat, q: nat :: Root(lvl, s) && q < PAGES && (s != r || q >= USER_PAGES) ==>
      Lookup(m', s, q) == Lookup(m, s, q)
  }

  /** Every root but the kernel's keeps its lower half. */
  ghost predicate LowerKept(m: Ram, m': Ram, lvl: Levels, kernel: nat) {
    forall s: nat, q: nat :: Root(lvl, s) && s != kernel && q < USER_PAGES ==> Lookup(m', s, q) == Lookup(m, s, q)
  }

  ghost predicate Step(w: World, w': World, op: Op) {
    && w'.kernel == w.kernel
    && (forall s :: Root(w.lvl, s) && !(op.Removed? && op.id in w.spaces && s == RootOf(w.spaces[op.id])) ==>
         Root(w'.lvl, s))
    && Effect(w, w', op)
  }

  ghost predicate Effect(w: World, w': World, op: Op) {
    match op
    case Refused => w'.spaces == w.spaces && SameLookups(w.ram, w'.ram, w.lvl)
    case Foreign => w'.spaces == w.spaces && LowerKept(w.ram, w'.ram, w.lvl, w.kernel)
    case Added(id) =>
      && id !in w.spaces && id in w'.spaces && w'.spaces == w.spaces[id := w'.spaces[id]] && w'.spaces[id].count == 0
      && NewRoot(w.ram, w'.ram, w.lvl, w.kernel, RootOf(w'.spaces[id]))
    case Removed(id) =>
      id in w.spaces && w.spaces[id].count == 0 && w'.spaces == w.spaces - {id} && w'.ram == w.ram
    case Filled(id, base, ws) =>
      && id in w.spaces && w'.spaces == Counted(w.spaces, id, SaturatingAdd(w.spaces[id].count, |ws|))
      && base + |ws| <= USER_PAGES && AllEmpty(w.ram, RootOf(w.spaces[id]), base, |ws|)
      && (forall i :: 0 <= i < |ws| ==> ws[i].Some?)
      && Patched(w.ram, w'.ram, w.lvl, RootOf(w.spaces[id]), base, ws)
    case Cleared(id, base, n) =>
      && id in w.spaces && w'.spaces == Counted(w.spaces, id, Lowered(w.spaces[id].count, n))
      && base + n <= USER_PAGES && Patched(w.ram, w'.ram, w.lvl, RootOf(w.spaces[id]), base, Nones(n))
    case Blanked(id, virt, n, free) =>
      && id in w.spaces && w'.spaces == Counted(w.spaces, id, SaturatingAdd(w.spaces[id].count, Blanks(w, op)))
      && SameLookups(w.ram, w'.ram, w.lvl)
    case Lessened(id, n) =>
      && id in w.spaces && RootOf(w.spaces[id]) == 0 && SameLookups(w.ram, w'.ram, w.lvl)
      && w'.spaces == Counted(w.spaces, id, Lowered(w.spaces[id].count, n))
    case TakenBack(id, pages) =>
      && id in w.spaces && pages < USIZE && w'.spaces == Capped(w.spaces, id, pages)
      && SameLookups(w.ram, w'.ram, w.lvl)
    case Shifted(id, from, to, n, k, free) =>
      && id in w.spaces && w'.spaces == w.spaces && k <= n
      && var r, a, b := RootOf(w.spaces[id]), PageOf(from), PageOf(to);
      && a + n <= USER_PAGES && b + n <= USER_PAGES && AllMapped(w.ram, r, a, n)
      && (forall q: nat :: b <= q < b + k ==> !Clash(w.ram, r, a, n, q))
      && Moved(w.ram, w'.ram, w.lvl, r, a, b, n, k)
      && (k == n <==> Roomy(w.ram, r, from, to, n, n, free))
  }

  /** The pages that a map without the present flag counts although it maps none. */
  ghost function Blanks(w: World, op: Op): nat
    requires op.Blanked? && op.id in w.spaces
  {
    var r := RootOf(w.spaces[op.id]);
    if r == 0 then 0 else Reach(w.ram, r, op.virt, op.n, op.free)
  }

  lemma RefusedStep(w: World)
    ensures Step(w, w, Refused)
  {
  }

  lemma DropStep(w: World, w': World, id: nat)
    requires id in w.spaces && w.spaces[id].count == 0
    requires w' == World(w.ram, w.lvl - {RootOf(w.spaces[id])}, w.spaces - {id}, w.kernel)
    ensures Step(w, w', Removed(id))
  {
  }

  /** A map that left every translation alone. */
  lemma BlankStep(w: World, w': World, id: nat, virt: Usize, n: nat, free: nat, k: nat)
    requires id in w.spaces && w'.spaces == Counted(w.spaces, id, SaturatingAdd(w.spaces[id].count, k))
    requires w'.kernel == w.kernel && (forall s :: Root(w.lvl, s) ==> Root(w'.lvl, s))
    requires SameLookups(w.ram, w'.ram, w.lvl) && Root(w.lvl, RootOf(w.spaces[id]))
    ensures k == Blanks(w, Blanked(id, virt, n, free)) ==> Step(w, w', Blanked(id, virt, n, free))
    ensures w'.spaces == w.spaces ==> Step(w, w', Refused) && (Exact(w, id) ==> Exact(w', id))
  {
    SamePages(w.ram, w'.ram, w.lvl, RootOf(w.spaces[id]));
  }

  lemma FillStep(w: World, w': World, id: nat, base: nat, ws: seq<Option<Word>>)
    requires id in w.spaces && w'.spaces == Counted(w.spaces, id, SaturatingAdd(w.spaces[id].count, |ws|))
    requires w'.kernel == w.kernel && (forall s :: Root(w.lvl, s) ==> Root(w'.lvl, s))
    requires Root(w.lvl, RootOf(w.spaces[id])) && base + |ws| <= USER_PAGES
    requires AllEmpty(w.ram, RootOf(w.spaces[id]), base, |ws|) && (forall i :: 0 <= i < |ws| ==> ws[i].Some?)
    requires Patched(w.ram, w'.ram, w.lvl, RootOf(w.spaces[id]), base, ws)
    ensures Step(w, w', Filled(id, base, ws)) && (Exact(w, id) ==> Exact(w', id))
  {
    hide Lookup, Patched, AllEmpty, UserPages;
    MappedCount(w.ram, w'.ram, w.lvl, RootOf(w.spaces[id]), base, ws);
  }

  lemma ShiftStep(w: World, w': World, id: nat, from: Usize, to: Usize, n: nat, k: nat, free: nat)
    requires id in w.spaces && w'.spaces == w.spaces && w'.kernel == w.kernel
    requires forall s :: Root(w.lvl, s) ==> Root(w'.lvl, s)
    requires WellFormed(w.ram, w.lvl) && Root(w.lvl, RootOf(w.spaces[id])) && Aligned(from) && Aligned(to) && k <= n
    requires PageOf(from) + n <= USER_PAGES && PageOf(to) + n <= USER_PAGES
    requires Relocates(w, w', RootOf(w.spaces[id]), from, to, n, k)
    requires k == n <==> Roomy(w.ram, RootOf(w.spaces[id]), from, to, n, n, free)
    ensures Step(w, w', Shifted(id, from, to, n, k, free))
  {
    hide Lookup, Relocates, Moved, Roomy;
    MoveRun(w, w', RootOf(w.spaces[id]), from, to, n, k);
  }

  /** A step about one space changes nothing but lower-half translations of its root. */
  lemma StepIsLower(w: World, w': World, op: Op)
    requires Step(w, w', op) && !op.Foreign? && !op.Added?
    ensures op.Refused? || op.Removed? ==> SameLookups(w.ram, w'.ram, w.lvl)
    ensures !op.Refused? ==> op.id in w.spaces && OnlyLower(w.ram, w'.ram, w.lvl, RootOf(w.spaces[op.id]))
  {
    hide Lookup;
  }

  function Trans(w: World, id: nat, q: nat): Option<Word>
    requires id in w.spaces
  {
    Lookup(w.ram, RootOf(w.spaces[id]), q)
  }

  /** Every space sees the kernel's upper half. */
  ghost predicate Mirrors(w: World) {
    forall id: nat, q: nat :: id in w.spaces && USER_PAGES <= q < PAGES ==>
      Trans(w, id, q) == Lookup(w.ram, w.kernel, q)
  }

  /** A step leaves alone the lower half of every space it is not about. A step that is not
      the kernel's own also leaves alone every upper half and the kernel's root. */
  lemma StepIsolates(w: World, w': World, op: Op)
    requires Sound(w) && Step(w, w', op)
    ensures forall id :: id in w.spaces && (op.Removed? ==> op.id != id) ==>
      id in w'.spaces && w'.spaces[id].pml4 == w.spaces[id].pml4
    ensures forall id: nat, q: nat :: id in w.spaces && id in w'.spaces && q < USER_PAGES && !About(op, id) ==>
      Trans(w', id, q) == Trans(w, id, q)
    ensures !op.Foreign? ==> forall id: nat, q: nat :: id in w.spaces && id in w'.spaces && USER_PAGES <= q < PAGES ==>
      Trans(w', id, q) == Trans(w, id, q)
    ensures !op.Foreign? ==> forall q: nat :: q < PAGES ==> Lookup(w'.ram, w'.kernel, q) == Lookup(w.ram, w.kernel, q)
    ensures !op.Foreign? && Mirrors(w) ==> Mirrors(w')
  {
    if !op.Foreign? && !op.Added? { StepIsLower(w, w', op); }
    hide Lookup, Patched, Moved, Nones, AllEmpty, AllMapped;
  }

  /** One run: worlds linked by steps. */
  ghost predicate Run(ws: seq<World>, ops: seq<Op>) {
    && |ws| == |ops| + 1
    && (forall i :: 0 <= i < |ws| ==> Sound(ws[i]))
    && (forall i :: 0 <= i < |ops| ==> Step(ws[i], ws[i + 1], ops[i]))
  }

  /** In every run of create, destroy, map, unmap, lower-half remap and kernel mappings, a
      space that no step is about keeps its whole lower half. Without kernel mappings it
      keeps all its translations, the kernel keeps all of its own, and every space mirrors
      the kernel's upper half throughout. */
  lemma {:induction false} Isolation(ws: seq<World>, ops: seq<Op>, id: nat)
    requires Run(ws, ops) && id in ws[0].spaces
    requires forall i :: 0 <= i < |ops| ==> !About(ops[i], id)
    ensures id in ws[|ops|].spaces
    ensures forall q: nat :: q < USER_PAGES ==> Trans(ws[|ops|], id, q) == Trans(ws[0], id, q)
    ensures (forall i :: 0 <= i < |ops| ==> !ops[i].Foreign?) ==>
      && (forall q: nat :: q < PAGES ==> Trans(ws[|ops|], id, q) == Trans(ws[0], id, q))
      && (forall q: nat :: q < PAGES ==>
           Lookup(ws[|ops|].ram, ws[|ops|].kernel, q) == Lookup(ws[0].ram, ws[0].kernel, q))
      && (Mirrors(ws[0]) ==> Mirrors(ws[|ops|]))
    decreases |ops|
  {
    hide Step, Sound, Lookup;
    if |ops| > 0 {
      var k := |ops| - 1;
      assert Run(ws[..k + 1], ops[..k]);
      Isolation(ws[..k + 1], ops[..k], id);
      StepIsolates(ws[k], ws[k + 1], ops[k]);
    }
  }

  /** Every state of a manager whose kernel is up is a sound world. */
  lemma ValidIsSound(mgr: AddressSpaceManager)
    requires mgr.Valid() && mgr.vm.active != 0
    ensures Sound(mgr.View())
  {
  }

  lemma RunExtend(ws: seq<World>, ops: seq<Op>, w: World, op: Op)
    requires Run(ws, ops) && Sound(w) && Step(ws[|ops|], w, op)
    ensures |ws| == |ops| + 1 && Run(ws + [w], ops + [op])
  {
    hide Sound, Step;
  }

  /** Steps that neither add nor remove a space keep the world sound. */
  lemma SoundStep(w: World, w': World, op: Op)
    requires Sound(w) && Step(w, w', op) && !op.Added? && !op.Removed?
    ensures Sound(w')
  {
    hide Lookup, Patched, Moved, Nones, AllEmpty, AllMapped, Clash, SameLookups, LowerKept;
    assert forall id :: id in w'.spaces ==> id in w.spaces && w'.spaces[id].pml4 == w.spaces[id].pml4;
  }

  // ----- the count over runs -----

  lemma SpaceElsewhere(w: World, w': World, op: Op, id: nat)
    requires Step(w, w', op) && id in w.spaces && !About(op, id)
    ensures id in w'.spaces && w'.spaces[id] == w.spaces[id]
  {
    hide Patched, Moved, NewRoot, SameLookups, LowerKept, AllEmpty, AllMapped, Clash, Roomy;
  }

  /** Counts of spaces a step is not about stay exact. */
  lemma ExactElsewhere(w: World, w': World, op: Op, id: nat)
    requires Sound(w) && Step(w, w', op) && id in w.spaces && Exact(w, id) && !About(op, id)
    ensures id in w'.spaces && Exact(w', id)
  {
    hide Lookup, Step, Sound;
    StepIsolates(w, w', op);
    SpaceElsewhere(w, w', op, id);
    var r := RootOf(w.spaces[id]);
    forall q: nat | q < USER_PAGES ensures Lookup(w'.ram, r, q) == Lookup(w.ram, r, q) {
      assert Trans(w', id, q) == Trans(w, id, q);
    }
    assert UserPages(w'.ram, r) == UserPages(w.ram, r);
  }

  /** With an exact count, a space that may be destroyed maps no user page. */
  lemma DestroyedWasEmpty(w: World, id: nat)
    requires id in w.spaces && Exact(w, id) && w.spaces[id].count == 0
    ensures forall q: nat :: q < USER_PAGES ==> Trans(w, id, q) == None
  {
    assert forall q: nat :: q < USER_PAGES && Trans(w, id, q).Some? ==> q in UserPages(w.ram, RootOf(w.spaces[id]));
  }

  ghost predicate AllExact(w: World) {
    forall id :: id in w.spaces ==> Exact(w, id)
  }

  /** What a caller can tell before the step. An unmap hits only mapped pages or all that
      are mapped. A remap meets no page that stays, and the free frames suffice for the
      tables it needs. A map without the present flag fails at its first page. A space
      whose root is frame 0 has nothing to uncount. Pages counted for a load that fails do
      not exhaust the count. */
  ghost predicate Careful(w: World, op: Op) {
    op.Refused? || op.Foreign? || op.id !in w.spaces ||
    var r := RootOf(w.spaces[op.id]);
    match op
    case Cleared(_, base, n) =>
      P.Range(base, n) <= UserPages(w.ram, r) || UserPages(w.ram, r) <= P.Range(base, n)
    case Shifted(_, from, to, n, _, free) => Roomy(w.ram, r, from, to, n, n, free)
    case Blanked(_, virt, n, free) => r == 0 || n == 0 || !Fits(w.ram, r, virt, 1, free)
    case Lessened(id, n) => w.spaces[id].count == 0 || n == 0
    case TakenBack(id, pages) => w.spaces[id].count + pages < USIZE
    case _ => true
  }

  /** The count of the space a step is about stays exact if and only if the step is careful. */
  lemma ExactStep(w: World, w': World, op: Op)
    requires Sound(w) && Step(w, w', op) && !op.Refused? && !op.Foreign? && !op.Added? && !op.Removed?
    requires op.id in w.spaces && Exact(w, op.id)
    ensures op.id in w'.spaces && (Exact(w', op.id) <==> Careful(w, op))
  {
    hide Lookup, UserPages, P.Range, Patched, Moved, SameLookups, AllEmpty, AllMapped, Clash, Nones, Roomy, Fits;
    var r := RootOf(w.spaces[op.id]);
    match op
    case Filled(id, base, ws) => MappedCount(w.ram, w'.ram, w.lvl, r, base, ws);
    case Cleared(id, base, n) => UnmappedCount(w.ram, w'.ram, w.lvl, r, base, n);
    case Shifted(id, from, to, n, k, free) => MovedCount(w.ram, w'.ram, w.lvl, r, PageOf(from), PageOf(to), n, k);
    case Lessened(id, n) => SamePages(w.ram, w'.ram, w.lvl, r);
    case TakenBack(id, pages) => SamePages(w.ram, w'.ram, w.lvl, r);
    case Blanked(id, virt, n, free) =>
      SamePages(w.ram, w'.ram, w.lvl, r);
      UserPagesBound(w.ram, r);
      if r != 0 { ReachNone(w.ram, r, virt, n, free); }
  }

  lemma UserPagesBound(m: Ram, r: nat)
    ensures |UserPages(m, r)| <= USER_PAGES
  {
    P.RangeSize(0, USER_PAGES);
    P.SubsetSize(UserPages(m, r), P.Range(0, USER_PAGES));
  }

  lemma ReachNone(m: Ram, r: nat, virt: Usize, n: nat, free: nat)
    ensures Reach(m, r, virt, n, free) == 0 <==> n == 0 || !Fits(m, r, virt, 1, free)
  {
    var k := Reach(m, r, virt, n, free);
    if k > 0 { FitsLess(m, r, virt, 1, k, free); }
  }

  lemma AllExactStep(w: World, w': World, op: Op)
    requires Sound(w) && Step(w, w', op) && AllExact(w)
    ensures AllExact(w') <==> Careful(w, op)
  {
    hide Lookup, Careful, Exact, UserPages;
    forall id | id in w'.spaces ensures Exact(w', id) || (!Careful(w, op) && About(op, id)) {
      if op.Added? && op.id == id {
        NewIsExact(w, w', id);
      } else if !About(op, id) {
        ExactElsewhere(w, w', op, id);
      } else {
        ExactStep(w, w', op);
      }
    }
    if op.Refused? || op.Foreign? || op.Added? || op.Removed? {
      AlwaysCareful(w, op);
    } else {
      ExactStep(w, w', op);
    }
  }

  lemma AlwaysCareful(w: World, op: Op)
    requires op.Refused? || op.Foreign? || op.Added? || op.Removed?
    ensures Careful(w, op)
  {
  }

  lemma NewIsExact(w: World, w': World, id: nat)
    requires Step(w, w', Added(id))
    ensures id in w'.spaces && Exact(w', id)
  {
    assert UserPages(w'.ram, RootOf(w'.spaces[id])) == {};
  }

  /** In a run that starts with exact counts, every count is the number of mapped user pages
      throughout if and only if every step is careful; and then a space that is destroyed
      maps no user page. */
  lemma ExactRun(ws: seq<World>, ops: seq<Op>)
    requires Run(ws, ops) && AllExact(ws[0])
    ensures (forall i :: 0 <= i < |ws| ==> AllExact(ws[i])) <==> (forall i :: 0 <= i < |ops| ==> Careful(ws[i], ops[i]))
    ensures (forall i :: 0 <= i < |ops| ==> Careful(ws[i], ops[i])) ==>
      forall i :: 0 <= i < |ops| && ops[i].Removed? ==>
        ops[i].id in ws[i].spaces && forall q: nat :: q < USER_PAGES ==> Trans(ws[i], ops[i].id, q) == None
  {
    hide Careful, AllExact, Sound, Step, Lookup;
    if forall i :: 0 <= i < |ws| ==> AllExact(ws[i]) {
      forall i | 0 <= i < |ops| ensures Careful(ws[i], ops[i]) {
        AllExactStep(ws[i], ws[i + 1], ops[i]);
      }
    }
    if forall i :: 0 <= i < |ops| ==> Careful(ws[i], ops[i]) {
      forall i | 0 <= i < |ws| ensures AllExact(ws[i]) {
        ExactUpTo(ws, ops, i);
      }
      forall i | 0 <= i < |ops| && ops[i].Removed?
        ensures ops[i].id in ws[i].spaces && forall q: nat :: q < USER_PAGES ==> Trans(ws[i], ops[i].id, q) == None
      {
        RemovedWasEmpty(ws[i], ws[i + 1], ops[i]);
      }
    }
  }

  lemma {:induction false} ExactUpTo(ws: seq<World>, ops: seq<Op>, n: nat)
    requires Run(ws, ops) && AllExact(ws[0]) && n <= |ops|
    requires forall i :: 0 <= i < |ops| ==> Careful(ws[i], ops[i])
    ensures AllExact(ws[n])
  {
    hide Careful, AllExact, Sound, Step;
    if n > 0 {
      ExactUpTo(ws, ops, n - 1);
      AllExactStep(ws[n - 1], ws[n], ops[n - 1]);
    }
  }

  lemma RemovedWasEmpty(w: World, w': World, op: Op)
    requires Step(w, w', op) && AllExact(w) && op.Removed?
    ensures op.id in w.spaces && forall q: nat :: q < USER_PAGES ==> Trans(w, op.id, q) == None
  {
    DestroyedWasEmpty(w, op.id);
  }
}
