/** Shared memory regions (kernel/src/shared_mem.rs): frames owned by a region and
    mapped into the active root on behalf of threads. */
module SharedMem {
  import opened Words
  import opened PageTables
  import opened Regions
  import opened Demand
  import P = Pmm
  import V = Vm

  datatype Error =
    | InvalidRegion | InvalidSize | PermissionDenied | OutOfMemory | Unaligned | AlreadyMapped | NotMapped
    | MappingFailed | RegionInUse

  datatype Result<+T> = Ok(value: T) | Err(error: Error)

  datatype RegionFlags = RegionFlags(read: bool, write: bool, execute: bool)

  datatype Mapping = Mapping(thread: nat, virt: Usize, flags: RegionFlags)

  datatype Region = Region(owner: nat, size: nat, frames: seq<Usize>, mappings: seq<Mapping>, refCount: nat)

  /** `to_page_flags`: present, for user mode, writable and executable on request. */
  function ToPageFlags(f: RegionFlags): Word { Flags(f.write, true, !f.execute) }

  /** What a page of the active root is held for. */
  datatype Holding = Holding(id: nat, thread: nat, index: nat, word: Word)

  type Held = map<nat, Holding>

  type Table = map<nat, Region>

  /** The bookkeeping of one region agrees with itself. */
  ghost predicate Tidy(g: Region) {
    && g.refCount == |g.mappings|
    && (forall i, j :: 0 <= i < j < |g.mappings| ==> g.mappings[i].thread != g.mappings[j].thread)
    && 0 < |g.frames| <= P.MAX_PAGES && g.size == |g.frames| * PAGE_SIZE
    && (forall j :: 0 <= j < |g.mappings| ==> Aligned(g.mappings[j].virt))
  }

  /** Frames of live regions are allocated, hold no table, and are nobody else's. */
  ghost predicate Owned(regions: Table, lvl: Levels, total: nat, free: set<nat>) {
    && (forall id, i :: id in regions && 0 <= i < |regions[id].frames| ==>
         FrameOk(regions[id].frames[i], lvl, total, free))
    && (forall id, i, jd, j ::
          (&& id in regions && 0 <= i < |regions[id].frames|
           && jd in regions && 0 <= j < |regions[jd].frames|
           && regions[id].frames[i] == regions[jd].frames[j]) ==> id == jd && i == j)
  }

  ghost predicate FrameOk(addr: Usize, lvl: Levels, total: nat, free: set<nat>) {
    Aligned(addr) && addr / PAGE_SIZE < total && addr / PAGE_SIZE !in free && addr / PAGE_SIZE !in lvl
  }

  /** Every page of every mapping is held for that mapping alone. */
  ghost predicate Mapped(regions: Table, held: Held) {
    forall id, j, i :: id in regions && 0 <= j < |regions[id].mappings| && 0 <= i < |regions[id].frames| ==>
      HeldFor(held, id, regions[id].mappings[j], i, regions[id].frames[i])
  }

  ghost predicate HeldFor(held: Held, id: nat, mp: Mapping, i: nat, frame: Usize) {
    var p := PageNo(mp.virt, i);
    p in held && held[p] == Holding(id, mp.thread, i, SetWord(frame, ToPageFlags(mp.flags)))
  }

  /** A held page translates to the word it is held for. */
  ghost predicate Backed(m: Ram, root: nat, held: Held) {
    forall p :: p in held ==> p < PAGES && Lookup(m, root, p) == Some(held[p].word)
  }

  // ----- the pages of a mapping -----

  /** The words mapping a region writes, by page. */
  function FrameWords(virt: Usize, frames: seq<Usize>, flags: Word, n: nat): map<nat, Option<Word>>
    requires n <= |frames|
  {
    if n == 0 then map[]
    else FrameWords(virt, frames, flags, n - 1)[PageNo(virt, n - 1) := Leaf(SetWord(frames[n - 1], flags))]
  }

  lemma {:induction false} FrameWordsAt(virt: Usize, frames: seq<Usize>, flags: Word, n: nat)
    requires n <= |frames| <= P.MAX_PAGES && Aligned(virt)
    ensures forall p :: p in FrameWords(virt, frames, flags, n) ==> exists i :: 0 <= i < n && p == PageNo(virt, i)
    ensures forall i :: 0 <= i < n ==>
      && PageNo(virt, i) in FrameWords(virt, frames, flags, n)
      && FrameWords(virt, frames, flags, n)[PageNo(virt, i)] == Leaf(SetWord(frames[i], flags))
  {
    if n > 0 {
      FrameWordsAt(virt, frames, flags, n - 1);
      forall i | 0 <= i < n - 1 ensures PageNo(virt, i) != PageNo(virt, n - 1) {
        PageNoInjective(virt, i, n - 1);
      }
    }
  }

  // ----- frames -----

  ghost function FrameSet(frames: seq<Usize>): set<nat> {
    set i | 0 <= i < |frames| :: frames[i] / PAGE_SIZE
  }

  lemma FrameSetStep(frames: seq<Usize>, f: Usize)
    ensures FrameSet(frames + [f]) == FrameSet(frames) + {f / PAGE_SIZE}
  {
    var g := frames + [f];
    assert forall i :: 0 <= i < |frames| ==> g[i] == frames[i];
    assert g[|frames|] == f;
    forall p | p in FrameSet(frames) ensures p in FrameSet(g) {
      var i :| 0 <= i < |frames| && frames[i] / PAGE_SIZE == p;
      assert g[i] / PAGE_SIZE == p;
    }
  }

  /** Distinct aligned frames, all taken from `free`. */
  ghost predicate Taken(frames: seq<Usize>, free: set<nat>) {
    && (forall i :: 0 <= i < |frames| ==> Aligned(frames[i]) && frames[i] / PAGE_SIZE in free)
    && (forall i, j :: 0 <= i < j < |frames| ==> frames[i] != frames[j])
  }

  class SharedMemManager {
    const vm: V.Vm
    var regions: Table
    var nextId: nat
    ghost var held: Held

    /** No region at the start. */
    constructor (vm: V.Vm)
      requires vm.Valid()
      ensures Valid() && this.vm == vm && regions == map[] && held == map[] && nextId == 1
    {
      this.vm := vm;
      regions, nextId, held := map[], 1, map[];
    }

    ghost predicate Valid()
      reads this, vm, vm.pmm, vm.pmm.bitmap
    {
      && vm.Valid()
      && (forall id :: id in regions ==> id < nextId && Tidy(regions[id]))
      && Owned(regions, vm.lvl, vm.pmm.total, vm.pmm.Free())
      && Mapped(regions, held) && Backed(vm.pmm.ram, vm.active / PAGE_SIZE, held)
      && (held != map[] ==> vm.active != 0)
    }

    method FreeFrame(frame: Usize)
      requires vm.Valid() && Aligned(frame) && frame / PAGE_SIZE < vm.pmm.total && frame / PAGE_SIZE !in vm.lvl
      modifies vm.pmm`free, vm.pmm.bitmap
      ensures vm.Valid() && vm.pmm.Free() == old(vm.pmm.Free()) + {frame / PAGE_SIZE}
    {
      hide WellFormed, UserReach, P.FreeSet, P.Released, P.Range;
      P.SingleRun({});
      P.ReleasedRange(frame / PAGE_SIZE, 1, vm.pmm.total);
      vm.pmm.FreePage(frame);
    }

    /** Frees the frames of a list, as the rollback of `SharedRegion::new` and
        `SharedRegion::destroy` do. */
    method FreeFrames(frames: seq<Usize>)
      requires vm.Valid()
      requires forall i :: 0 <= i < |frames| ==>
        Aligned(frames[i]) && frames[i] / PAGE_SIZE < vm.pmm.total && frames[i] / PAGE_SIZE !in vm.lvl
      modifies vm.pmm`free, vm.pmm.bitmap
      ensures vm.Valid() && vm.pmm.Free() == old(vm.pmm.Free()) + FrameSet(frames)
    {
      hide P.FreeSet, FrameSet, V.Vm.Valid;
      FrameSetNone();
      for i := 0 to |frames|
        invariant vm.Valid() && vm.pmm.Free() == old(vm.pmm.Free()) + FrameSet(frames[..i])
      {
        FrameSetStep(frames[..i], frames[i]);
        assert frames[..i + 1] == frames[..i] + [frames[i]];
        FreeFrame(frames[i]);
      }
      assert frames[..|frames|] == frames;
    }

    /** One zeroed frame that is no table; no translation differs. */
    method TakeFrame() returns (r: Option<Usize>)
      requires vm.Valid()
      modifies vm.pmm, vm.pmm.bitmap
      ensures vm.Valid() && vm.pmm.total == old(vm.pmm.total) && SameLookups(old(vm.pmm.ram), vm.pmm.ram, vm.lvl)
      ensures r.None? <==> old(vm.pmm.Free()) == {}
      ensures r.None? ==> vm.pmm.Free() == old(vm.pmm.Free())
      ensures r.Some? ==> Aligned(r.value) && r.value / PAGE_SIZE in old(vm.pmm.Free())
      ensures r.Some? ==> vm.pmm.Free() == old(vm.pmm.Free()) - {r.value / PAGE_SIZE}
      ensures |vm.pmm.ram| == |old(vm.pmm.ram)| && (r.None? ==> vm.pmm.ram == old(vm.pmm.ram))
      ensures r.Some? ==>
        r.value / PAGE_SIZE < |vm.pmm.ram| && vm.pmm.ram == old(vm.pmm.ram)[r.value / PAGE_SIZE := Blank()]
    {
      hide WellFormed, UserReach, P.FreeSet, Lookup, SameLookups;
      ghost var m := vm.pmm.ram;
      SameRefl(m, vm.lvl);
      r := vm.pmm.AllocPageZeroed();
      if r.Some? {
        ScrubFrame(m, vm.lvl, r.value / PAGE_SIZE);
      }
    }

    /** The allocation loop of `SharedRegion::new`: `n` zeroed frames, or the free set as
        it was. Frames that were in use keep their contents. */
    method AllocFrames(n: nat) returns (r: Option<seq<Usize>>)
      requires vm.Valid()
      modifies vm.pmm, vm.pmm.bitmap
      ensures vm.Valid() && vm.pmm.total == old(vm.pmm.total) && SameLookups(old(vm.pmm.ram), vm.pmm.ram, vm.lvl)
      ensures r.Some? <==> n <= |old(vm.pmm.Free())|
      ensures r.None? ==> vm.pmm.Free() == old(vm.pmm.Free())
      ensures r.Some? ==>
        |r.value| == n && Taken(r.value, old(vm.pmm.Free())) && vm.pmm.Free() == old(vm.pmm.Free()) - FrameSet(r.value)
      ensures r.Some? ==> |vm.pmm.Free()| == |old(vm.pmm.Free())| - n
      ensures InUseKept(old(vm.pmm.ram), vm.pmm.ram, old(vm.pmm.Free()))
      ensures r.Some? ==> Wiped(old(vm.pmm.ram), vm.pmm.ram, r.value)
    {
      hide WellFormed, UserReach, P.FreeSet, FrameSet, Lookup, Took, Taken, SameLookups, Wiped, InUseKept;
      ghost var m, f := vm.pmm.ram, vm.pmm.Free();
      var frames: seq<Usize> := [];
      TookNone(f);
      WipedNone(m, f);
      SameRefl(m, vm.lvl);
      for i := 0 to n
        invariant vm.Valid() && vm.pmm.total == old(vm.pmm.total) && SameLookups(m, vm.pmm.ram, vm.lvl)
        invariant |frames| == i && Took(frames, f, vm.pmm.Free()) && Wiped(m, vm.pmm.ram, frames)
      {
        ghost var mi := vm.pmm.ram;
        TookMeaning(frames, f, vm.pmm.Free());
        var phys := TakeFrame();
        SameTransitive(m, mi, vm.pmm.ram, vm.lvl);
        if phys.None? {
          WipedInUse(m, mi, frames, f);
          FreeFrames(frames);
          return None;
        }
        WipedStep(m, mi, frames, phys.value);
        TookStep(frames, f, f - FrameSet(frames), phys.value);
        frames := frames + [phys.value];
      }
      TookMeaning(frames, f, vm.pmm.Free());
      WipedInUse(m, vm.pmm.ram, frames, f);
      return Some(frames);
    }

    /** The unmapping loops of `SharedRegion::map` and `SharedRegion::unmap`. */
    method UnmapFrames(virt: Usize, n: nat)
      requires vm.Valid() && vm.active != 0 && Aligned(virt) && n <= P.MAX_PAGES
      modifies vm`lvl, vm.pmm, vm.pmm.bitmap
      ensures vm.Valid() && vm.pmm.total == old(vm.pmm.total) && vm.lvl == old(vm.lvl)
      ensures vm.pmm.Free() == old(vm.pmm.Free())
      ensures Grows(old(vm.pmm.ram), vm.lvl, vm.pmm.ram, vm.lvl, vm.active / PAGE_SIZE)
      ensures Overlay(old(vm.pmm.ram), vm.pmm.ram, vm.lvl, vm.active / PAGE_SIZE, Emptied(virt, n))
    {
      hide WellFormed, UserReach, P.FreeSet, Lookup, LookupSet, Overlay, Grows;
      ghost var m, l, r := vm.pmm.ram, vm.lvl, vm.active / PAGE_SIZE;
      GrowsRefl(m, l, r);
      OverlayNone(m, l, r);
      for i := 0 to n
        invariant vm.Valid() && vm.pmm.total == old(vm.pmm.total) && vm.lvl == l && vm.pmm.Free() == old(vm.pmm.Free())
        invariant Grows(m, l, vm.pmm.ram, l, r) && Overlay(m, vm.pmm.ram, l, r, Emptied(virt, i))
      {
        ghost var mi := vm.pmm.ram;
        PageNoIs(virt, i);
        var e := vm.UnmapPage((virt + i * PAGE_SIZE) % USIZE);
        if e.Err? {
          LookupIs(mi, l, r, PageNo(virt, i));
        }
        OverlayStep(m, l, mi, l, vm.pmm.ram, r, Emptied(virt, i), PageNo(virt, i), None);
        GrowsTransitive(m, l, mi, l, vm.pmm.ram, l, r);
      }
    }

    /** The mapping loop of `SharedRegion::map`: stops at the first page that fails. */
    method MapFrames(virt: Usize, frames: seq<Usize>, flags: Word) returns (k: nat, e: V.Result<()>)
      requires vm.Valid() && Aligned(virt) && |frames| <= P.MAX_PAGES
      requires forall i :: 0 <= i < |frames| ==> Aligned(frames[i])
      modifies vm`lvl, vm.pmm, vm.pmm.bitmap
      ensures vm.Valid() && vm.pmm.total == old(vm.pmm.total)
      ensures Paid(old(vm.lvl), old(vm.pmm.Free()), vm.lvl, vm.pmm.Free())
      ensures Grows(old(vm.pmm.ram), old(vm.lvl), vm.pmm.ram, vm.lvl, vm.active / PAGE_SIZE)
      ensures var root, free := vm.active / PAGE_SIZE, |old(vm.pmm.Free())|;
        && k == (if vm.active == 0 then 0 else Reach(old(vm.pmm.ram), root, virt, |frames|, free))
        && (e.Ok? <==> k == |frames|) && (e.Err? ==> e.error == Shortage(old(vm.pmm.ram), vm.active, virt, k, free))
      ensures k > 0 || vm.active != 0 ==>
        Overlay(old(vm.pmm.ram), vm.pmm.ram, old(vm.lvl), vm.active / PAGE_SIZE, FrameWords(virt, frames, flags, k))
      ensures k == 0 ==> SameLookups(old(vm.pmm.ram), vm.pmm.ram, old(vm.lvl))
    {
      hide WellFormed, UserReach, P.FreeSet, Lookup, LookupSet, Overlay, Grows, SameLookups, Missing, Paid;
      hide FrameWords, SetWord, PageNo, Tab, Needed, Paved, Fits, Shortage, V.MapOutcome;
      hide V.Housed;
      SameRefl(vm.pmm.ram, vm.lvl);
      ghost var m, l, r, f := vm.pmm.ram, vm.lvl, vm.active / PAGE_SIZE, vm.pmm.Free();
      GrowsRefl(m, l, r);
      V.PaidRefl(l, f);
      OverlayNone(m, l, r);
      FrameWordsStep(virt, frames, flags, 0);
      PavedNone(m, r, virt);
      FitsNone(m, r, virt, |f|);
      k := 0;
      e := V.Ok(());
      while k < |frames|
        invariant k <= |frames| && vm.Valid() && vm.pmm.total == old(vm.pmm.total) && Paid(l, f, vm.lvl, vm.pmm.Free())
        invariant Grows(m, l, vm.pmm.ram, vm.lvl, r) && Overlay(m, vm.pmm.ram, l, r, FrameWords(virt, frames, flags, k))
        invariant Paved(m, vm.pmm.ram, r, virt, k) && |vm.pmm.Free()| == |f| - Needed(m, r, virt, k)
        invariant Fits(m, r, virt, k, |f|) && (k > 0 ==> vm.active != 0) && e.Ok?
        invariant k == 0 ==> vm.pmm.ram == m && vm.lvl == l
      {
        ghost var mi, li, fi := vm.pmm.ram, vm.lvl, vm.pmm.Free();
        WrapAligned(virt, k);
        PageNoAt(virt, k);
        GrowsRoots(m, l, mi, li, r);
        var v := (virt + k * PAGE_SIZE) % USIZE;
        if vm.active != 0 {
          OverlayMiss(m, mi, l, r, virt, frames, flags, k);
        }
        NextFits(m, mi, r, virt, k, |f|, |fi|, vm.active, v, frames[k]);
        e := vm.MapPage(v, frames[k], flags);
        GrowsTransitive(m, l, mi, li, vm.pmm.ram, vm.lvl, r);
        PaidTransitive(l, f, li, fi, vm.lvl, vm.pmm.Free());
        if e.Err? {
          ShortageIs(m, vm.active, virt, k, |f|);
          if vm.active != 0 { ReachIs(m, r, virt, |frames|, |f|, k); }
          OverlaySame(m, l, mi, li, vm.pmm.ram, r, FrameWords(virt, frames, flags, k));
          return;
        }
        ghost var word := Leaf(SetWord(frames[k], flags));
        OverlayStep(m, l, mi, li, vm.pmm.ram, r, FrameWords(virt, frames, flags, k), PageNo(virt, k), word);
        FrameWordsStep(virt, frames, flags, k);
        PaveStep(m, mi, li, fi, vm.pmm.ram, vm.lvl, vm.pmm.Free(), r, virt, k);
        k := k + 1;
      }
      ReachIs(m, r, virt, |frames|, |f|, k);
    }

    /** `create_region`: zeroed frames covering the size rounded up to pages; a
        failure leaves the free set as it was. */
    method CreateRegion(owner: nat, size: Usize) returns (r: Result<nat>)
      requires Valid()
      modifies this, vm.pmm, vm.pmm.bitmap
      ensures Valid() && SameLookups(old(vm.pmm.ram), vm.pmm.ram, vm.lvl) && held == old(held)
      ensures var n := AlignUp(size) / PAGE_SIZE;
        && (r.Ok? <==> 0 < n <= |old(vm.pmm.Free())|)
        && (r.Err? ==> r.error == if n == 0 then InvalidSize else OutOfMemory)
      ensures r.Err? ==> regions == old(regions) && vm.pmm.Free() == old(vm.pmm.Free())
      ensures r.Ok? ==> r.value == old(nextId) && r.value !in old(regions) && r.value in regions
      ensures r.Ok? ==> var g := regions[r.value];
        && regions == old(regions)[r.value := g] && g.owner == owner && g.size == AlignUp(size) && g.mappings == []
        && Taken(g.frames, old(vm.pmm.Free())) && vm.pmm.Free() == old(vm.pmm.Free()) - FrameSet(g.frames)
        && Wiped(old(vm.pmm.ram), vm.pmm.ram, g.frames)
      ensures InUseKept(old(vm.pmm.ram), vm.pmm.ram, old(vm.pmm.Free()))
    {
      hide WellFormed, UserReach, P.FreeSet, Lookup, SameLookups, Backed, Mapped, Owned, Taken, FrameSet, Wiped;
      hide InUseKept;
      WipedNone(vm.pmm.ram, vm.pmm.Free());
      ghost var m, f := vm.pmm.ram, vm.pmm.Free();
      SameRefl(m, vm.lvl);
      var n := AlignUp(size) / PAGE_SIZE;
      nextId := nextId + 1;
      if n == 0 {
        return Err(InvalidSize);
      }
      var frames := AllocFrames(n);
      BackedKept(m, vm.pmm.ram, vm.lvl, vm.active, held);
      if frames.None? {
        return Err(OutOfMemory);
      }
      var g := Region(owner, AlignUp(size), frames.value, [], 0);
      FreeBound(f, vm.pmm.total);
      OwnedAdd(regions, vm.lvl, vm.pmm.total, f, nextId - 1, g);
      MappedAdd(regions, held, nextId - 1, g);
      regions := regions[nextId - 1 := g];
      return Ok(nextId - 1);
    }

    /** `map_region`: one mapping per thread; on failure nothing differs, on success
        the region's pages, all vacant before, translate to its frames. */
    method MapRegion(id: nat, thread: nat, virt: Usize, flags: RegionFlags) returns (r: Result<()>)
      requires Valid()
      modifies `regions, `held, vm`lvl, vm.pmm, vm.pmm.bitmap
      ensures Valid() && vm.pmm.total == old(vm.pmm.total)
      ensures Paid(old(vm.lvl), old(vm.pmm.Free()), vm.lvl, vm.pmm.Free())
      ensures Grows(old(vm.pmm.ram), old(vm.lvl), vm.pmm.ram, vm.lvl, vm.active / PAGE_SIZE)
      ensures r == MapResult(old(regions), id, thread, virt, old(vm.pmm.ram), vm.active, |old(vm.pmm.Free())|)
      ensures r.Err? ==>
        regions == old(regions) && held == old(held) && SameLookups(old(vm.pmm.ram), vm.pmm.ram, old(vm.lvl))
      ensures r.Ok? ==> var g := old(regions)[id];
        && !HasThread(g, thread) && regions == old(regions)[id := Attached(g, Mapping(thread, virt, flags))]
        && Fits(old(vm.pmm.ram), vm.active / PAGE_SIZE, virt, |g.frames|, |old(vm.pmm.Free())|)
        && var words := FrameWords(virt, g.frames, ToPageFlags(flags), |g.frames|);
        Overlay(old(vm.pmm.ram), vm.pmm.ram, old(vm.lvl), vm.active / PAGE_SIZE, words)
      ensures r.Ok? ==> regions.Keys == old(regions).Keys && forall j :: j in regions ==>
        var g, g' := old(regions)[j], regions[j];
        && g'.owner == g.owner && g'.size == g.size && g'.frames == g.frames
        && g'.mappings == (if j == id then g.mappings + [Mapping(thread, virt, flags)] else g.mappings)
        && g'.refCount == if j == id then g.refCount + 1 else g.refCount
      ensures r.Ok? ==> forall i :: 0 <= i < |regions[id].frames| ==>
        var frame := regions[id].frames[i] / PAGE_SIZE;
        && frame < FRAMES
        && Lookup(vm.pmm.ram, vm.active / PAGE_SIZE, PageNo(virt, i)) ==
             Some(Word(true, flags.write, true, 0, frame, 0, !flags.execute))
    {
      hide WellFormed, UserReach, P.FreeSet, Lookup, SameLookups, Backed, Mapped, Owned, Overlay, Vacant, Grows, Paid;
      hide FrameWords, Hold, Tidy, Fits, Needed, V.Housed;
      ghost var m, l, f, root := vm.pmm.ram, vm.lvl, vm.pmm.Free(), vm.active / PAGE_SIZE;
      SameRefl(m, l);
      V.PaidRefl(l, f);
      GrowsRefl(m, l, root);
      if id !in regions {
        return Err(InvalidRegion);
      }
      if !Aligned(virt) {
        return Err(Unaligned);
      }
      var g := regions[id];
      if HasThread(g, thread) {
        return Err(AlreadyMapped);
      }
      TidyFrames(g);
      OwnedAligned(regions, l, vm.pmm.total, f, id);
      var k, e := MapFrames(virt, g.frames, ToPageFlags(flags));
      OwnedPaid(regions, l, vm.pmm.total, f, vm.lvl, vm.pmm.Free());
      ReachIs(m, root, virt, |g.frames|, |f|, Reach(m, root, virt, |g.frames|, |f|));
      if e.Err? {
        ghost var m1, l1 := vm.pmm.ram, vm.lvl;
        if k > 0 {
          FitsVacant(m, root, virt, k, |f|);
          UnmapFrames(virt, k);
          GrowsTransitive(m, l, m1, l1, vm.pmm.ram, vm.lvl, root);
          RolledBack(m, l, m1, l1, vm.pmm.ram, root, virt, g.frames, ToPageFlags(flags), k);
        }
        BackedKept(m, vm.pmm.ram, l, vm.active, held);
        return Err(match e.error
                   case AlreadyMapped => AlreadyMapped
                   case OutOfMemory => OutOfMemory
                   case _ => MappingFailed);
      }
      var mp := Mapping(thread, virt, flags);
      FitsVacant(m, root, virt, |g.frames|, |f|);
      BackedHold(m, vm.pmm.ram, l, root, held, id, g, mp);
      MappedHold(regions, held, id, g, mp, m, root);
      TidyAttached(g, mp);
      OwnedSameFrames(regions, vm.lvl, vm.pmm.total, vm.pmm.Free(), id, Attached(g, mp));
      held := Hold(held, id, mp, g.frames, |g.frames|);
      regions := regions[id := Attached(g, mp)];
      forall i | 0 <= i < |g.frames|
        ensures var frame := g.frames[i] / PAGE_SIZE;
          && frame < FRAMES
          && Lookup(vm.pmm.ram, root, PageNo(virt, i)) ==
               Some(Word(true, flags.write, true, 0, frame, 0, !flags.execute))
      {
        SharedPage(regions, held, vm.pmm.ram, root, vm.lvl, vm.pmm.total, vm.pmm.Free(), id, |g.mappings|, i);
      }
      return Ok(());
    }

    /** `unmap_region`: the thread's mapping goes and with it exactly its pages. */
    method UnmapRegion(id: nat, thread: nat) returns (r: Result<()>)
      requires Valid()
      modifies `regions, `held, vm`lvl, vm.pmm, vm.pmm.bitmap
      ensures Valid() && vm.pmm.total == old(vm.pmm.total) && vm.lvl == old(vm.lvl)
      ensures vm.pmm.Free() == old(vm.pmm.Free())
      ensures Grows(old(vm.pmm.ram), old(vm.lvl), vm.pmm.ram, vm.lvl, vm.active / PAGE_SIZE)
      ensures r == if id !in old(regions) then Err(InvalidRegion)
        else if !HasThread(old(regions)[id], thread) then Err(NotMapped) else Ok(())
      ensures r.Err? ==> regions == old(regions) && held == old(held) && vm.pmm.ram == old(vm.pmm.ram)
      ensures r.Ok? ==> exists j :: 0 <= j < |old(regions)[id].mappings| && var g := old(regions)[id];
        && g.mappings[j].thread == thread && regions == old(regions)[id := Detached(g, j)]
        && Overlay(old(vm.pmm.ram), vm.pmm.ram, vm.lvl, vm.active / PAGE_SIZE, Emptied(g.mappings[j].virt, |g.frames|))
        && regions[id].mappings == g.mappings[..j] + g.mappings[j + 1..] && regions[id].refCount == g.refCount - 1
      ensures r.Ok? ==> regions.Keys == old(regions).Keys && forall j :: j in regions ==>
        var g, g' := old(regions)[j], regions[j];
        && g'.owner == g.owner && g'.size == g.size && g'.frames == g.frames
        && (j != id ==> g' == g)
    {
      hide WellFormed, UserReach, P.FreeSet, Lookup, Backed, Mapped, Owned, Overlay, Grows, Emptied, Tidy, V.Housed;
      GrowsRefl(vm.pmm.ram, vm.lvl, vm.active / PAGE_SIZE);
      if id !in regions {
        return Err(InvalidRegion);
      }
      var g := regions[id];
      var j := 0;
      while j < |g.mappings| && g.mappings[j].thread != thread
        invariant j <= |g.mappings| && forall i :: 0 <= i < j ==> g.mappings[i].thread != thread
      {
        j := j + 1;
      }
      if j == |g.mappings| {
        return Err(NotMapped);
      }
      ghost var m := vm.pmm.ram;
      TidyFrames(g);
      TidyMapping(g, j);
      MappedActive(regions, held, id, j);
      UnmapFrames(g.mappings[j].virt, |g.frames|);
      ghost var left := Release(held, id, thread);
      BackedRelease(m, vm.pmm.ram, vm.lvl, vm.active / PAGE_SIZE, held, regions, id, j);
      MappedRelease(regions, held, id, j);
      TidyDetached(g, j);
      OwnedSameFrames(regions, vm.lvl, vm.pmm.total, vm.pmm.Free(), id, Detached(g, j));
      held := left;
      regions := regions[id := Detached(g, j)];
      return Ok(());
    }

    /** `destroy_region`: only by its owner and only when nobody maps it; frees
        exactly its frames. */
    method DestroyRegion(id: nat, caller: nat) returns (r: Result<()>)
      requires Valid()
      modifies `regions, vm.pmm`free, vm.pmm.bitmap
      ensures Valid() && held == old(held)
      ensures r == if id !in old(regions) then Err(InvalidRegion)
        else if old(regions)[id].owner != caller then Err(PermissionDenied)
        else if old(regions)[id].mappings != [] then Err(RegionInUse) else Ok(())
      ensures r.Err? ==> regions == old(regions) && vm.pmm.Free() == old(vm.pmm.Free())
      ensures r.Ok? ==>
        regions == old(regions) - {id} && vm.pmm.Free() == old(vm.pmm.Free()) + FrameSet(old(regions)[id].frames)
    {
      hide WellFormed, UserReach, P.FreeSet, Lookup, Backed, Mapped, Owned, FrameSet;
      if id !in regions {
        return Err(InvalidRegion);
      }
      if regions[id].owner != caller {
        return Err(PermissionDenied);
      }
      if regions[id].refCount != 0 {
        return Err(RegionInUse);
      }
      OwnedAligned(regions, vm.lvl, vm.pmm.total, vm.pmm.Free(), id);
      OwnedDrop(regions, vm.lvl, vm.pmm.total, vm.pmm.Free(), id);
      MappedDrop(regions, held, id);
      FreeFrames(regions[id].frames);
      regions := regions - {id};
      return Ok(());
    }
  }

  /** The frames in the list are blank and every other frame is as it was. */
  ghost predicate Wiped(m: Ram, m': Ram, frames: seq<Usize>) {
    && |m'| == |m|
    && (forall i :: 0 <= i < |frames| ==> frames[i] / PAGE_SIZE < |m| && m'[frames[i] / PAGE_SIZE] == Blank())
    && (forall f: nat :: f < |m| && f !in FrameSet(frames) ==> m'[f] == m[f])
  }

  /** Frames that were not free keep their contents. */
  ghost predicate InUseKept(m: Ram, m': Ram, free: set<nat>) {
    |m'| == |m| && forall f: nat :: f < |m| && f !in free ==> m'[f] == m[f]
  }

  lemma WipedNone(m: Ram, free: set<nat>)
    ensures Wiped(m, m, []) && InUseKept(m, m, free)
  {
  }

  lemma WipedStep(m: Ram, m': Ram, frames: seq<Usize>, a: Usize)
    requires Wiped(m, m', frames) && a / PAGE_SIZE < |m|
    ensures Wiped(m, m'[a / PAGE_SIZE := Blank()], frames + [a])
  {
    FrameSetStep(frames, a);
  }

  lemma WipedInUse(m: Ram, m': Ram, frames: seq<Usize>, free: set<nat>)
    requires Wiped(m, m', frames) && FrameSet(frames) <= free
    ensures InUseKept(m, m', free)
  {
  }

  /** Taking `frames` out of `f` left `f'`. */
  ghost predicate Took(frames: seq<Usize>, f: set<nat>, f': set<nat>) {
    Taken(frames, f) && f' == f - FrameSet(frames) && |f'| == |f| - |frames|
  }

  lemma TookNone(f: set<nat>)
    ensures Took([], f, f)
  {
  }

  lemma TookStep(frames: seq<Usize>, f: set<nat>, f': set<nat>, a: Usize)
    requires Took(frames, f, f') && Aligned(a) && a / PAGE_SIZE in f'
    ensures Took(frames + [a], f, f' - {a / PAGE_SIZE})
  {
    FrameSetStep(frames, a);
    FrameSetTaken(frames, f);
  }

  lemma TookMeaning(frames: seq<Usize>, f: set<nat>, f': set<nat>)
    requires Took(frames, f, f')
    ensures Taken(frames, f) && f' == f - FrameSet(frames) && |f'| == |f| - |frames| && FrameSet(frames) <= f
    ensures f' + FrameSet(frames) == f
    ensures forall i :: 0 <= i < |frames| ==> Aligned(frames[i]) && frames[i] / PAGE_SIZE in f
  {
    FrameSetTaken(frames, f);
  }

  lemma FrameSetNone()
    ensures forall frames: seq<Usize> :: FrameSet(frames[..0]) == {}
    ensures FrameSet([]) == {}
  {
  }

  lemma FrameSetTaken(frames: seq<Usize>, free: set<nat>)
    requires Taken(frames, free)
    ensures FrameSet(frames) <= free
    ensures forall i :: 0 <= i < |frames| ==> frames[i] / PAGE_SIZE in FrameSet(frames)
  {
  }

  lemma FrameWordsStep(virt: Usize, frames: seq<Usize>, flags: Word, k: nat)
    requires k <= |frames|
    ensures FrameWords(virt, frames, flags, 0) == map[]
    ensures k < |frames| ==>
      FrameWords(virt, frames, flags, k + 1) ==
        FrameWords(virt, frames, flags, k)[PageNo(virt, k) := Leaf(SetWord(frames[k], flags))]
  {
  }

  /** Why mapping stops at the `k`-th page: the kernel has no root, the frames are used up,
      or the page is mapped. */
  ghost function Shortage(m: Ram, active: Usize, virt: Usize, k: nat, free: nat): V.VmError {
    if active == 0 then V.NotInitialized
    else if Needed(m, active / PAGE_SIZE, virt, k + 1) > free then V.OutOfMemory else V.AlreadyMapped
  }

  lemma ShortageIs(m: Ram, active: Usize, virt: Usize, k: nat, free: nat)
    ensures Shortage(m, active, virt, k, free) ==
      if active == 0 then V.NotInitialized
      else if Needed(m, active / PAGE_SIZE, virt, k + 1) > free then V.OutOfMemory else V.AlreadyMapped
  {
  }

  /** What `map_region` must return, from the state before. */
  ghost function MapResult(
    regions: Table, id: nat, thread: nat, virt: Usize, m: Ram, active: Usize, free: nat): Result<()>
  {
    if id !in regions then Err(InvalidRegion)
    else if !Aligned(virt) then Err(Unaligned)
    else if HasThread(regions[id], thread) then Err(AlreadyMapped)
    else if active == 0 then Err(MappingFailed)
    else
      var root, n := active / PAGE_SIZE, |regions[id].frames|;
      if Fits(m, root, virt, n, free) then Ok(())
      else if Needed(m, root, virt, Reach(m, root, virt, n, free) + 1) > free then Err(OutOfMemory)
      else Err(AlreadyMapped)
  }

  /** The next page of a mapping in progress is still as it was. */
  lemma OverlayMiss(m: Ram, m': Ram, lvl: Levels, r: nat, virt: Usize, frames: seq<Usize>, flags: Word, k: nat)
    requires k < |frames| <= P.MAX_PAGES && Aligned(virt) && Root(lvl, r)
    requires Overlay(m, m', lvl, r, FrameWords(virt, frames, flags, k))
    ensures Lookup(m', r, PageNo(virt, k)) == Lookup(m, r, PageNo(virt, k))
  {
    FrameWordsAt(virt, frames, flags, k);
    forall i | 0 <= i < k ensures PageNo(virt, i) != PageNo(virt, k) {
      PageNoInjective(virt, i, k);
    }
  }

  // ----- keeping the invariant -----

  predicate HasThread(g: Region, thread: nat) {
    exists j :: 0 <= j < |g.mappings| && g.mappings[j].thread == thread
  }

  function Attached(g: Region, mp: Mapping): Region {
    g.(mappings := g.mappings + [mp], refCount := g.refCount + 1)
  }

  /** In every reachable state, each page of each mapping translates to the region's frame at
      that place, for user mode, writable and executable as the mapping asked. So threads that
      map one region share its frames. */
  lemma SharedPage(
    regions: Table, held: Held, m: Ram, root: nat, lvl: Levels, total: nat, free: set<nat>, id: nat, j: nat, i: nat)
    requires Mapped(regions, held) && Backed(m, root, held) && Owned(regions, lvl, total, free)
    requires id in regions && j < |regions[id].mappings| && i < |regions[id].frames| && total <= P.MAX_PAGES
    ensures var mp, frame := regions[id].mappings[j], regions[id].frames[i] / PAGE_SIZE;
      && frame < FRAMES
      && Lookup(m, root, PageNo(mp.virt, i)) ==
           Some(Word(true, mp.flags.write, true, 0, frame, 0, !mp.flags.execute))
  {
    hide Lookup, SetWord;
    assert HeldFor(held, id, regions[id].mappings[j], i, regions[id].frames[i]);
    OwnedAligned(regions, lvl, total, free, id);
    SetWordMeaning(regions[id].frames[i], ToPageFlags(regions[id].mappings[j].flags));
  }

  /** The held pages with those of one more mapping. */
  function Hold(held: Held, id: nat, mp: Mapping, frames: seq<Usize>, n: nat): Held
    requires n <= |frames|
  {
    if n == 0 then held
    else Hold(held, id, mp, frames, n - 1)[PageNo(mp.virt, n - 1) :=
      Holding(id, mp.thread, n - 1, SetWord(frames[n - 1], ToPageFlags(mp.flags)))]
  }

  lemma {:induction false} HoldAt(held: Held, id: nat, mp: Mapping, frames: seq<Usize>, n: nat)
    requires n <= |frames| <= P.MAX_PAGES && Aligned(mp.virt)
    ensures forall i :: 0 <= i < n ==> HeldFor(Hold(held, id, mp, frames, n), id, mp, i, frames[i])
    ensures forall p :: p in Hold(held, id, mp, frames, n) ==>
      p in held || exists i :: 0 <= i < n && p == PageNo(mp.virt, i)
    ensures forall p :: p in held && (forall i :: 0 <= i < n ==> p != PageNo(mp.virt, i)) ==>
      p in Hold(held, id, mp, frames, n) && Hold(held, id, mp, frames, n)[p] == held[p]
  {
    if n > 0 {
      HoldAt(held, id, mp, frames, n - 1);
      forall i | 0 <= i < n - 1 ensures PageNo(mp.virt, i) != PageNo(mp.virt, n - 1) {
        PageNoInjective(mp.virt, i, n - 1);
      }
    }
  }

  lemma BackedKept(m: Ram, m': Ram, lvl: Levels, active: nat, held: Held)
    requires Backed(m, active / PAGE_SIZE, held) && SameLookups(m, m', lvl)
    requires held != map[] ==> Root(lvl, active / PAGE_SIZE)
    ensures Backed(m', active / PAGE_SIZE, held)
  {
  }

  lemma FreeBound(f: set<nat>, total: nat)
    requires forall p :: p in f ==> p < total
    ensures |f| <= total
  {
    P.RangeSize(0, total);
    P.SubsetSize(f, P.Range(0, total));
  }

  lemma OwnedAdd(regions: Table, lvl: Levels, total: nat, f: set<nat>, id: nat, g: Region)
    requires Owned(regions, lvl, total, f) && V.Housed(lvl, total, f) && id !in regions
    requires Taken(g.frames, f) && forall p :: p in f ==> p < total
    ensures Owned(regions[id := g], lvl, total, f - FrameSet(g.frames))
  {
    FrameSetTaken(g.frames, f);
  }

  lemma MappedAdd(regions: Table, held: Held, id: nat, g: Region)
    requires Mapped(regions, held) && g.mappings == []
    ensures Mapped(regions[id := g], held)
  {
  }

  lemma OwnedPaid(regions: Table, lvl: Levels, total: nat, f: set<nat>, lvl': Levels, f': set<nat>)
    requires Owned(regions, lvl, total, f) && Paid(lvl, f, lvl', f')
    ensures Owned(regions, lvl', total, f')
  {
    forall addr: Usize | FrameOk(addr, lvl, total, f) ensures FrameOk(addr, lvl', total, f') {
      assert addr / PAGE_SIZE !in lvl'.Keys;
    }
  }

  lemma OwnedAligned(regions: Table, lvl: Levels, total: nat, f: set<nat>, id: nat)
    requires Owned(regions, lvl, total, f) && id in regions
    ensures forall i :: 0 <= i < |regions[id].frames| ==> Aligned(regions[id].frames[i])
    ensures forall i :: 0 <= i < |regions[id].frames| ==>
      regions[id].frames[i] / PAGE_SIZE < total && regions[id].frames[i] / PAGE_SIZE !in lvl
  {
    assert forall i :: 0 <= i < |regions[id].frames| ==> FrameOk(regions[id].frames[i], lvl, total, f);
  }

  lemma OwnedSameFrames(regions: Table, lvl: Levels, total: nat, f: set<nat>, id: nat, g: Region)
    requires Owned(regions, lvl, total, f) && id in regions && g.frames == regions[id].frames
    ensures Owned(regions[id := g], lvl, total, f)
  {
    var regions' := regions[id := g];
    assert forall jd :: jd in regions' ==> jd in regions && regions'[jd].frames == regions[jd].frames;
  }

  lemma TidyFrames(g: Region)
    requires Tidy(g)
    ensures 0 < |g.frames| <= P.MAX_PAGES
  {
  }

  lemma TidyAttached(g: Region, mp: Mapping)
    requires Tidy(g) && Aligned(mp.virt) && !HasThread(g, mp.thread)
    ensures Tidy(Attached(g, mp))
  {
  }

  /** Unmapping the pages a failed mapping had set restores every translation. */
  lemma RolledBack(
    m: Ram, lvl: Levels, m1: Ram, lvl1: Levels, m2: Ram, r: nat, virt: Usize, frames: seq<Usize>, flags: Word, k: nat)
    requires WellFormed(m, lvl) && Root(lvl, r) && Grows(m, lvl, m1, lvl1, r) && k <= |frames| <= P.MAX_PAGES
    requires Aligned(virt)
    requires Overlay(m, m1, lvl, r, FrameWords(virt, frames, flags, k)) && Vacant(m, r, virt, k)
    requires Overlay(m1, m2, lvl1, r, Emptied(virt, k))
    ensures SameLookups(m, m2, lvl)
  {
    hide Lookup;
    FrameWordsAt(virt, frames, flags, k);
    EmptiedAt(virt, k);
    var ws, vs := FrameWords(virt, frames, flags, k), Emptied(virt, k);
    forall s: nat, q: nat | Root(lvl, s) && q < PAGES
      ensures Lookup(m2, s, q) == if q in vs && (s == r || Shares(m, r, s, q)) then vs[q] else Lookup(m, s, q)
    {
      assert Root(lvl1, s) && (q in ws <==> q in vs);
      if s != r {
        SharesKept(m, lvl, m1, lvl1, r, s, q);
      }
    }
    OverlayUndone(m, m2, lvl, r, vs);
  }

  /** New pages were vacant, so no page held before is among them. */
  lemma HeldElsewhere(m: Ram, r: nat, held: Held, virt: Usize, n: nat)
    requires Backed(m, r, held) && Vacant(m, r, virt, n)
    ensures forall i :: 0 <= i < n ==> PageNo(virt, i) !in held
  {
  }

  lemma BackedHold(m: Ram, m': Ram, lvl: Levels, r: nat, held: Held, id: nat, g: Region, mp: Mapping)
    requires Backed(m, r, held) && Root(lvl, r) && |g.frames| <= P.MAX_PAGES && Aligned(mp.virt)
    requires Vacant(m, r, mp.virt, |g.frames|)
    requires Overlay(m, m', lvl, r, FrameWords(mp.virt, g.frames, ToPageFlags(mp.flags), |g.frames|))
    ensures Backed(m', r, Hold(held, id, mp, g.frames, |g.frames|))
  {
    hide Lookup;
    var n := |g.frames|;
    var ws, held' := FrameWords(mp.virt, g.frames, ToPageFlags(mp.flags), n), Hold(held, id, mp, g.frames, n);
    FrameWordsAt(mp.virt, g.frames, ToPageFlags(mp.flags), n);
    HoldAt(held, id, mp, g.frames, n);
    HeldElsewhere(m, r, held, mp.virt, n);
    forall p | p in held' ensures p < PAGES && Lookup(m', r, p) == Some(held'[p].word) {
      if p !in held {
        var i :| 0 <= i < n && p == PageNo(mp.virt, i);
        assert HeldFor(held', id, mp, i, g.frames[i]);
      } else {
        assert p !in ws;
      }
    }
  }

  lemma MappedHold(regions: Table, held: Held, id: nat, g: Region, mp: Mapping, m: Ram, r: nat)
    requires Mapped(regions, held) && id in regions && regions[id] == g && |g.frames| <= P.MAX_PAGES && Aligned(mp.virt)
    requires Backed(m, r, held) && Vacant(m, r, mp.virt, |g.frames|)
    ensures Mapped(regions[id := Attached(g, mp)], Hold(held, id, mp, g.frames, |g.frames|))
  {
    hide Lookup, Hold;
    var n := |g.frames|;
    var regions', held' := regions[id := Attached(g, mp)], Hold(held, id, mp, g.frames, n);
    HoldAt(held, id, mp, g.frames, n);
    HeldElsewhere(m, r, held, mp.virt, n);
    forall jd, j, i | jd in regions' && 0 <= j < |regions'[jd].mappings| && 0 <= i < |regions'[jd].frames|
      ensures HeldFor(held', jd, regions'[jd].mappings[j], i, regions'[jd].frames[i])
    {
      if jd != id || j < |g.mappings| {
        assert regions'[jd].mappings[j] == regions[jd].mappings[j];
        assert HeldFor(held, jd, regions[jd].mappings[j], i, regions[jd].frames[i]);
      }
    }
  }

  function Detached(g: Region, j: nat): Region
    requires j < |g.mappings|
  {
    g.(mappings := g.mappings[..j] + g.mappings[j + 1..], refCount := if g.refCount > 0 then g.refCount - 1 else 0)
  }

  ghost function Release(held: Held, id: nat, thread: nat): Held {
    map p | p in held && !(held[p].id == id && held[p].thread == thread) :: held[p]
  }

  lemma TidyMapping(g: Region, j: nat)
    requires Tidy(g) && j < |g.mappings|
    ensures Aligned(g.mappings[j].virt) && g.refCount > 0
  {
  }

  lemma TidyDetached(g: Region, j: nat)
    requires Tidy(g) && j < |g.mappings|
    ensures Tidy(Detached(g, j))
    ensures forall i :: 0 <= i < |Detached(g, j).mappings| ==>
      Detached(g, j).mappings[i] in g.mappings && Detached(g, j).mappings[i].thread != g.mappings[j].thread
  {
    var d := Detached(g, j).mappings;
    assert forall i :: 0 <= i < |d| ==> d[i] == g.mappings[if i < j then i else i + 1];
  }

  lemma MappedActive(regions: Table, held: Held, id: nat, j: nat)
    requires Mapped(regions, held) && id in regions && j < |regions[id].mappings| && 0 < |regions[id].frames|
    ensures held != map[]
  {
    assert HeldFor(held, id, regions[id].mappings[j], 0, regions[id].frames[0]);
  }

  /** The emptied pages were held for the mapping that went, so the pages still
      held translate as before. */
  lemma BackedRelease(m: Ram, m': Ram, lvl: Levels, r: nat, held: Held, regions: Table, id: nat, j: nat)
    requires Backed(m, r, held) && Root(lvl, r) && Mapped(regions, held) && id in regions && j < |regions[id].mappings|
    requires Overlay(m, m', lvl, r, Emptied(regions[id].mappings[j].virt, |regions[id].frames|))
    ensures Backed(m', r, Release(held, id, regions[id].mappings[j].thread))
  {
    hide Lookup;
    var g := regions[id];
    var left := Release(held, id, g.mappings[j].thread);
    EmptiedAt(g.mappings[j].virt, |g.frames|);
    forall p | p in Emptied(g.mappings[j].virt, |g.frames|) ensures p !in left {
      var i :| 0 <= i < |g.frames| && p == PageNo(g.mappings[j].virt, i);
      assert HeldFor(held, id, g.mappings[j], i, g.frames[i]);
    }
  }

  lemma MappedRelease(regions: Table, held: Held, id: nat, j: nat)
    requires Mapped(regions, held) && id in regions && Tidy(regions[id]) && j < |regions[id].mappings|
    ensures Mapped(regions[id := Detached(regions[id], j)], Release(held, id, regions[id].mappings[j].thread))
  {
    var g := regions[id];
    var regions', left := regions[id := Detached(g, j)], Release(held, id, g.mappings[j].thread);
    TidyDetached(g, j);
    forall jd, k, i | jd in regions' && 0 <= k < |regions'[jd].mappings| && 0 <= i < |regions'[jd].frames|
      ensures HeldFor(left, jd, regions'[jd].mappings[k], i, regions'[jd].frames[i])
    {
      var mp := regions'[jd].mappings[k];
      assert mp in regions[jd].mappings;
      var k' :| 0 <= k' < |regions[jd].mappings| && regions[jd].mappings[k'] == mp;
      assert HeldFor(held, jd, regions[jd].mappings[k'], i, regions[jd].frames[i]);
    }
  }

  lemma OwnedDrop(regions: Table, lvl: Levels, total: nat, f: set<nat>, id: nat)
    requires Owned(regions, lvl, total, f) && id in regions
    ensures Owned(regions - {id}, lvl, total, f + FrameSet(regions[id].frames))
  {
    var g := regions[id];
    forall jd, j | jd in regions - {id} && 0 <= j < |regions[jd].frames|
      ensures FrameOk(regions[jd].frames[j], lvl, total, f + FrameSet(g.frames))
    {
      assert FrameOk(regions[jd].frames[j], lvl, total, f);
      forall i | 0 <= i < |g.frames| ensures g.frames[i] / PAGE_SIZE != regions[jd].frames[j] / PAGE_SIZE {
        assert FrameOk(g.frames[i], lvl, total, f);
      }
    }
  }

  lemma MappedDrop(regions: Table, held: Held, id: nat)
    requires Mapped(regions, held)
    ensures Mapped(regions - {id}, held)
  {
  }

  /** Steps of other subsystems that pay for their tables with free frames, free
      none of the regions' frames and leave the active root's translations alone
      keep the shared-memory invariant. */
  lemma StableElsewhere(
    regions: Table, held: Held, m: Ram, lvl: Levels, f: set<nat>, m': Ram, lvl': Levels, f': set<nat>, total: nat,
    root: nat)
    requires Owned(regions, lvl, total, f) && Backed(m, root, held)
    requires forall p :: p in f' ==> p in f || p in lvl
    requires forall t :: t in lvl' ==> t in f || t in lvl
    requires forall q: nat :: q < PAGES ==> Lookup(m', root, q) == Lookup(m, root, q)
    ensures Owned(regions, lvl', total, f') && Backed(m', root, held)
  {
    hide Lookup;
    forall addr: Usize | FrameOk(addr, lvl, total, f) ensures FrameOk(addr, lvl', total, f') {
    }
  }
}
