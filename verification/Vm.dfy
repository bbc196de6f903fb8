/** The virtual memory manager (kernel/src/mm/vm.rs): mapping, unmapping and
    querying single pages in page tables that live in raw frames. */
module Vm {
  import opened Words
  import opened PageTables
  import P = Pmm

  datatype VmError = NotInitialized | Unaligned | AlreadyMapped | NotMapped | OutOfMemory

  datatype Result<+T> = Ok(value: T) | Err(error: VmError)

  /** Every table sits in a tracked frame that is not free. */
  ghost predicate Housed(lvl: Levels, total: nat, free: set<nat>) {
    forall t :: t in lvl ==> t < total && t !in free
  }

  /** A tracked frame that is neither free nor a table. */
  ghost predicate Unused(lvl: Levels, total: nat, free: set<nat>, d: nat) {
    d < total && d !in lvl && d !in free
  }

  class Vm {
    const pmm: P.Pmm
    var active: Usize
    ghost var lvl: Levels

    /** Before `init` there are no tables. */
    constructor (pmm: P.Pmm)
      requires pmm.Valid()
      ensures Valid() && this.pmm == pmm && active == 0 && lvl == map[]
    {
      this.pmm := pmm;
      active, lvl := 0, map[];
    }

    /** Tables are well formed and sit in allocated, tracked frames. */
    ghost predicate Valid()
      reads this, pmm, pmm.bitmap
    {
      && pmm.Valid()
      && WellFormed(pmm.ram, lvl) && UserReach(pmm.ram, lvl)
      && Housed(lvl, pmm.total, pmm.Free())
      && (active != 0 ==> Aligned(active) && Root(lvl, active / PAGE_SIZE))
    }

    /** `ensure_table_user`: the table below entry `i` of table `t`. */
    method EnsureTableUser(t: nat, i: nat, create: bool, user: bool, ghost root: nat) returns (r: Result<nat>)
      requires Valid() && t in lvl && lvl[t] >= 2 && i < ENTRIES && (t == root || lvl[t] < 4)
      modifies `lvl, pmm, pmm.bitmap
      ensures Valid() && pmm.total == old(pmm.total)
      ensures Grows(old(pmm.ram), old(lvl), pmm.ram, lvl, root) && SameLookups(old(pmm.ram), pmm.ram, old(lvl))
      ensures r.Ok? ==> Link(pmm.ram, lvl, t, i, r.value) && (user ==> At(pmm.ram, t, i).user)
      ensures var e := old(At(pmm.ram, t, i));
        && (r == Err(NotMapped) <==> !e.present && !create)
        && (r == Err(OutOfMemory) <==> !e.present && create && old(pmm.Free()) == {})
        && (r.Ok? <==> e.present || (create && old(pmm.Free()) != {}))
        && (e.present || r.Err? ==> lvl == old(lvl) && pmm.Free() == old(pmm.Free()))
        && (r.Err? || (e.present && !user) ==> pmm.ram == old(pmm.ram))
        && (e.present ==> SameLinks(old(pmm.ram), pmm.ram, lvl))
        && (r.Ok? && !e.present ==>
              && r.value in old(pmm.Free()) && pmm.Free() == old(pmm.Free()) - {r.value}
              && lvl == old(lvl)[r.value := lvl[t] - 1] && pmm.ram[r.value] == Blank())
    {
      hide UserReach, Grows, SameLookups, P.FreeSet;
      GrowsRefl(pmm.ram, lvl, root);
      var e := pmm.ram[t][i];
      if e.present {
        assert Link(pmm.ram, lvl, t, i, e.frame);
        if user && !e.user {
          PromoteStep(pmm.ram, lvl, t, i, root);
          pmm.ram := Poke(pmm.ram, t, i, e.(user := true));
        }
        return Ok(e.frame);
      }
      if !create {
        return Err(NotMapped);
      }
      r := AddTable(t, i, user, root);
    }

    /** The allocating half of `ensure_table_user`. */
    method AddTable(t: nat, i: nat, user: bool, ghost root: nat) returns (r: Result<nat>)
      requires Valid() && t in lvl && lvl[t] >= 2 && i < ENTRIES && !At(pmm.ram, t, i).present
      requires t == root || lvl[t] < 4
      modifies `lvl, pmm, pmm.bitmap
      ensures Valid() && pmm.total == old(pmm.total)
      ensures r.Err? <==> old(pmm.Free()) == {}
      ensures r.Err? ==>
        r == Err(OutOfMemory) && lvl == old(lvl) && pmm.Free() == old(pmm.Free()) && pmm.ram == old(pmm.ram)
      ensures r.Ok? ==> r.value in old(pmm.Free()) && pmm.Free() == old(pmm.Free()) - {r.value}
      ensures r.Ok? ==>
        r.value < |pmm.ram| && lvl == old(lvl)[r.value := old(lvl)[t] - 1] && pmm.ram[r.value] == Blank()
      ensures r.Ok? ==> Link(pmm.ram, lvl, t, i, r.value) && (user ==> At(pmm.ram, t, i).user)
      ensures r.Ok? ==>
        Grows(old(pmm.ram), old(lvl), pmm.ram, lvl, root) && SameLookups(old(pmm.ram), pmm.ram, old(lvl))
    {
      hide WellFormed, UserReach, Grows, SameLookups, P.FreeSet, SetWord, Tab, Lookup;
      ghost var m, l := pmm.ram, lvl;
      var phys := pmm.AllocPageZeroed();
      if phys.None? {
        return Err(OutOfMemory);
      }
      var f := phys.value / PAGE_SIZE;
      var w := SetWord(phys.value, Flags(true, user, false));
      TableWord(phys.value, user);
      GrowStep(m, l, t, i, f, w, root);
      pmm.ram := Poke(pmm.ram, t, i, w);
      lvl := lvl[f := lvl[t] - 1];
      assert pmm.ram == Grown(m, t, i, f, w);
      return Ok(f);
    }

    /** One level of the walk to page `p`: from its table of level `k` to the next. */
    method Descend(root: nat, p: nat, k: nat, t: nat, create: bool, user: bool) returns (r: Result<nat>)
      requires Valid() && Root(lvl, root) && p < PAGES && 2 <= k <= 4 && Tab(pmm.ram, root, p, k) == Some(t)
      modifies `lvl, pmm, pmm.bitmap
      ensures Valid() && pmm.total == old(pmm.total) && Paid(old(lvl), old(pmm.Free()), lvl, pmm.Free())
      ensures Grows(old(pmm.ram), old(lvl), pmm.ram, lvl, root) && SameLookups(old(pmm.ram), pmm.ram, old(lvl))
      ensures r.Err? <==> old(Tab(pmm.ram, root, p, k - 1)).None? && (!create || old(pmm.Free()) == {})
      ensures r.Err? ==> r.error == if create then OutOfMemory else NotMapped
      ensures r.Err? || (!user && old(Tab(pmm.ram, root, p, k - 1)).Some?) ==>
        pmm.ram == old(pmm.ram) && lvl == old(lvl) && pmm.Free() == old(pmm.Free())
      ensures r.Ok? ==> Tab(pmm.ram, root, p, k - 1) == Some(r.value) && (user ==> Open(pmm.ram, root, p, k))
      ensures r.Ok? ==> old(Missing(pmm.ram, root, p)) - Missing(pmm.ram, root, p) == |old(pmm.Free())| - |pmm.Free()|
    {
      hide WellFormed, UserReach, Grows, SameLookups, SameLinks, P.FreeSet;
      ghost var m, l := pmm.ram, lvl;
      TabLevel(m, lvl, root, p, k);
      r := EnsureTableUser(t, Idx(p, k), create, user, root);
      GrowsTab(m, l, pmm.ram, lvl, root, root, p, k);
      if r.Ok? {
        if At(m, t, Idx(p, k)).present {
          MissingKept(m, pmm.ram, lvl, root, p);
        } else {
          MissingGrown(m, pmm.ram, root, p, k, r.value);
        }
      }
    }

    /** `walk_to_entry_with_root_user`: the table holding the leaf entry of a page.
        Growing the walk fails exactly when more tables are missing than frames
        are free; otherwise every missing table takes one frame. */
    method Walk(root: nat, p: nat, create: bool, user: bool) returns (r: Result<nat>)
      requires Valid() && Root(lvl, root) && p < PAGES
      modifies `lvl, pmm, pmm.bitmap
      ensures Valid() && pmm.total == old(pmm.total) && Paid(old(lvl), old(pmm.Free()), lvl, pmm.Free())
      ensures Grows(old(pmm.ram), old(lvl), pmm.ram, lvl, root) && SameLookups(old(pmm.ram), pmm.ram, old(lvl))
      ensures r.Ok? ==> Tab(pmm.ram, root, p, 1) == Some(r.value) && (user ==> OpenPath(pmm.ram, root, p))
      ensures !create && !user ==> r.Ok? == old(Tab(pmm.ram, root, p, 1)).Some?
      ensures create ==> r.Ok? == (old(Missing(pmm.ram, root, p)) <= |old(pmm.Free())|)
      ensures create && r.Ok? ==> |pmm.Free()| == |old(pmm.Free())| - old(Missing(pmm.ram, root, p))
      ensures r.Err? ==> r.error == if create then OutOfMemory else NotMapped
      ensures !create && !user ==> pmm.ram == old(pmm.ram) && lvl == old(lvl) && pmm.Free() == old(pmm.Free())
    {
      hide WellFormed, UserReach, Grows, SameLookups, Paid, Tab, Missing, Open, P.FreeSet, Housed;
      RootTab(pmm.ram, root, p);
      MissingMeaning(pmm.ram, root, p);
      ghost var m0, l0, f0 := pmm.ram, lvl, pmm.Free();
      r := Descend(root, p, 4, root, create, user);
      ghost var m1, l1, f1 := pmm.ram, lvl, pmm.Free();
      MissingMeaning(m1, root, p);
      if r.Err? {
        return;
      }
      GrowsTab(m0, l0, m1, l1, root, root, p, 4);
      r := Descend(root, p, 3, r.value, create, user);
      ghost var m2, l2, f2 := pmm.ram, lvl, pmm.Free();
      GrowsTransitive(m0, l0, m1, l1, m2, l2, root);
      PaidTransitive(l0, f0, l1, f1, l2, f2);
      MissingMeaning(m2, root, p);
      if r.Err? {
        return;
      }
      GrowsTab(m1, l1, m2, l2, root, root, p, 4);
      r := Descend(root, p, 2, r.value, create, user);
      GrowsTransitive(m0, l0, m2, l2, pmm.ram, lvl, root);
      PaidTransitive(l0, f0, l2, f2, lvl, pmm.Free());
      MissingMeaning(pmm.ram, root, p);
      GrowsTab(m2, l2, pmm.ram, lvl, root, root, p, 4);
      GrowsTab(m2, l2, pmm.ram, lvl, root, root, p, 3);
    }

    /** `map_page_in_pml4`: fails for exactly the stated reason, leaving every
        translation of every root alone, or sets the translation of one page. */
    method MapPageInPml4(pml4: Usize, virt: Usize, phys: Usize, flags: Word) returns (r: Result<()>)
      requires Valid() && RootAddr(lvl, pml4)
      modifies `lvl, pmm, pmm.bitmap
      ensures Valid() && pmm.total == old(pmm.total) && Paid(old(lvl), old(pmm.Free()), lvl, pmm.Free())
      ensures r == old(MapOutcome(pmm.ram, |pmm.Free()|, pml4, virt, phys))
      ensures Grows(old(pmm.ram), old(lvl), pmm.ram, lvl, pml4 / PAGE_SIZE)
      ensures r.Err? ==> SameLookups(old(pmm.ram), pmm.ram, old(lvl))
      ensures r.Ok? ==>
        LookupSet(old(pmm.ram), pmm.ram, old(lvl), pml4 / PAGE_SIZE, PageOf(virt), Leaf(SetWord(phys, flags)))
      ensures r.Ok? && flags.present && flags.frame == 0 ==>
        var frame := phys / PAGE_SIZE % FRAMES;
        Lookup(pmm.ram, pml4 / PAGE_SIZE, PageOf(virt)) ==
          Some(Word(true, flags.writable, flags.user, flags.low, frame, flags.high, flags.nx))
      ensures r.Ok? && !flags.present ==> Lookup(pmm.ram, pml4 / PAGE_SIZE, PageOf(virt)) == None
      ensures r.Ok? ==> Tab(pmm.ram, pml4 / PAGE_SIZE, PageOf(virt), 1).Some?
      ensures r.Ok? ==> |pmm.Free()| == |old(pmm.Free())| - old(Missing(pmm.ram, pml4 / PAGE_SIZE, PageOf(virt)))
    {
      hide WellFormed, UserReach, Grows, SameLookups, LookupSet, Paid, Tab, Missing, P.FreeSet;
      ghost var m0, l0 := pmm.ram, lvl;
      GrowsRefl(m0, l0, pml4 / PAGE_SIZE);
      PaidRefl(lvl, pmm.Free());
      if virt % PAGE_SIZE != 0 || phys % PAGE_SIZE != 0 {
        return Err(Unaligned);
      }
      if pml4 == 0 {
        return Err(NotInitialized);
      }
      var root, p := pml4 / PAGE_SIZE, PageOf(virt);
      var walk := Walk(root, p, true, flags.user);
      ghost var m1 := pmm.ram;
      GrowsTab(m0, l0, m1, lvl, root, root, p, 4);
      SameAt(m0, m1, l0, root, p);
      if walk.Err? {
        return Err(walk.error);
      }
      TabLevel(m1, lvl, root, p, 1);
      if pmm.ram[walk.value][Idx(p, 1)].present {
        return Err(AlreadyMapped);
      }
      LeafStep(m1, lvl, root, p, SetWord(phys, flags));
      pmm.ram := Poke(pmm.ram, walk.value, Idx(p, 1), SetWord(phys, flags));
      LeafReach(m1, lvl, pmm.ram, root, p, Leaf(SetWord(phys, flags)));
      SetAfterGrow(m0, l0, m1, lvl, pmm.ram, root, p, Leaf(SetWord(phys, flags)));
      SetWordMeaning(phys, flags);
      SetHere(m0, pmm.ram, l0, root, p, Leaf(SetWord(phys, flags)));
      return Ok(());
    }

    /** `map_page`: the same under the active root. */
    method MapPage(virt: Usize, phys: Usize, flags: Word) returns (r: Result<()>)
      requires Valid()
      modifies `lvl, pmm, pmm.bitmap
      ensures Valid() && pmm.total == old(pmm.total) && Paid(old(lvl), old(pmm.Free()), lvl, pmm.Free())
      ensures r == old(MapOutcome(pmm.ram, |pmm.Free()|, active, virt, phys))
      ensures Grows(old(pmm.ram), old(lvl), pmm.ram, lvl, active / PAGE_SIZE)
      ensures r.Err? ==> SameLookups(old(pmm.ram), pmm.ram, old(lvl))
      ensures r.Ok? ==>
        LookupSet(old(pmm.ram), pmm.ram, old(lvl), active / PAGE_SIZE, PageOf(virt), Leaf(SetWord(phys, flags)))
      ensures r.Ok? && flags.present && flags.frame == 0 ==>
        var frame := phys / PAGE_SIZE % FRAMES;
        Lookup(pmm.ram, active / PAGE_SIZE, PageOf(virt)) ==
          Some(Word(true, flags.writable, flags.user, flags.low, frame, flags.high, flags.nx))
      ensures r.Ok? && !flags.present ==> Lookup(pmm.ram, active / PAGE_SIZE, PageOf(virt)) == None
      ensures r.Ok? ==> Tab(pmm.ram, active / PAGE_SIZE, PageOf(virt), 1).Some?
      ensures r.Ok? ==> |pmm.Free()| == |old(pmm.Free())| - old(Missing(pmm.ram, active / PAGE_SIZE, PageOf(virt)))
    {
      r := MapPageInPml4(active, virt, phys, flags);
    }

    /** `unmap_page_in_pml4`: clears the translation of one page, or reports that
        it has none. */
    method UnmapPageInPml4(pml4: Usize, virt: Usize) returns (r: Result<()>)
      requires Valid() && RootAddr(lvl, pml4)
      modifies `lvl, pmm, pmm.bitmap
      ensures Valid() && pmm.total == old(pmm.total) && lvl == old(lvl) && pmm.Free() == old(pmm.Free())
      ensures r == old(UnmapOutcome(pmm.ram, pml4, virt))
      ensures Grows(old(pmm.ram), lvl, pmm.ram, lvl, pml4 / PAGE_SIZE)
      ensures r.Err? ==> pmm.ram == old(pmm.ram)
      ensures r.Ok? ==> LookupSet(old(pmm.ram), pmm.ram, lvl, pml4 / PAGE_SIZE, PageOf(virt), None)
    {
      hide WellFormed, UserReach, Grows, SameLookups, LookupSet, Paid, Tab, Missing, P.FreeSet;
      ghost var m := pmm.ram;
      GrowsRefl(m, lvl, pml4 / PAGE_SIZE);
      if virt % PAGE_SIZE != 0 {
        return Err(Unaligned);
      }
      if pml4 == 0 {
        return Err(NotInitialized);
      }
      var root, p := pml4 / PAGE_SIZE, PageOf(virt);
      var walk := Walk(root, p, false, false);
      if walk.Err? {
        return Err(walk.error);
      }
      TabLevel(m, lvl, root, p, 1);
      if !pmm.ram[walk.value][Idx(p, 1)].present {
        return Err(NotMapped);
      }
      LeafStep(m, lvl, root, p, ZERO);
      pmm.ram := Poke(pmm.ram, walk.value, Idx(p, 1), ZERO);
      LeafReach(m, lvl, pmm.ram, root, p, None);
      return Ok(());
    }

    /** `unmap_page`: the same under the active root. */
    method UnmapPage(virt: Usize) returns (r: Result<()>)
      requires Valid()
      modifies `lvl, pmm, pmm.bitmap
      ensures Valid() && pmm.total == old(pmm.total) && lvl == old(lvl) && pmm.Free() == old(pmm.Free())
      ensures r == old(UnmapOutcome(pmm.ram, active, virt))
      ensures Grows(old(pmm.ram), lvl, pmm.ram, lvl, active / PAGE_SIZE)
      ensures r.Err? ==> pmm.ram == old(pmm.ram)
      ensures r.Ok? ==> LookupSet(old(pmm.ram), pmm.ram, lvl, active / PAGE_SIZE, PageOf(virt), None)
    {
      r := UnmapPageInPml4(active, virt);
    }

    /** `query_mapping_in_pml4`: the frame address and the raw leaf word. */
    method QueryMappingInPml4(pml4: Usize, virt: Usize) returns (r: Result<(nat, Word)>)
      requires Valid() && RootAddr(lvl, pml4)
      modifies `lvl, pmm, pmm.bitmap
      ensures Valid() && pmm.total == old(pmm.total)
      ensures pmm.ram == old(pmm.ram) && lvl == old(lvl) && pmm.Free() == old(pmm.Free())
      ensures r.Err? ==> Err(r.error) == old(UnmapOutcome(pmm.ram, pml4, virt))
      ensures r.Ok? ==> old(UnmapOutcome(pmm.ram, pml4, virt)).Ok?
      ensures r.Ok? ==>
        Lookup(pmm.ram, pml4 / PAGE_SIZE, PageOf(virt)) == Some(r.value.1) && r.value.0 == 4096 * r.value.1.frame
      ensures r.Ok? ==> r.value.1.present
    {
      hide WellFormed, UserReach, Grows, SameLookups, LookupSet, Paid, Tab, Missing, P.FreeSet;
      if virt % PAGE_SIZE != 0 {
        return Err(Unaligned);
      }
      if pml4 == 0 {
        return Err(NotInitialized);
      }
      var root, p := pml4 / PAGE_SIZE, PageOf(virt);
      var walk := Walk(root, p, false, false);
      if walk.Err? {
        return Err(walk.error);
      }
      TabLevel(pmm.ram, lvl, root, p, 1);
      var w := pmm.ram[walk.value][Idx(p, 1)];
      if !w.present {
        return Err(NotMapped);
      }
      return Ok((AddrOf(w), w));
    }

    /** `translate`: the frame the active root gives an address, aligned or not. */
    method Translate(virt: Usize) returns (r: Option<nat>)
      requires Valid()
      modifies `lvl, pmm, pmm.bitmap
      ensures Valid() && pmm.total == old(pmm.total)
      ensures pmm.ram == old(pmm.ram) && lvl == old(lvl) && pmm.Free() == old(pmm.Free())
      ensures active == 0 ==> r == None
      ensures active != 0 ==> var o := Lookup(pmm.ram, active / PAGE_SIZE, PageOf(virt));
        r == if o.None? then None else Some(4096 * o.value.frame)
    {
      hide WellFormed, UserReach, Grows, SameLookups, LookupSet, Paid, Tab, Missing, P.FreeSet;
      if active == 0 {
        return None;
      }
      var p := PageOf(virt);
      var walk := Walk(active / PAGE_SIZE, p, false, false);
      if walk.Err? {
        return None;
      }
      TabLevel(pmm.ram, lvl, active / PAGE_SIZE, p, 1);
      var w := pmm.ram[walk.value][Idx(p, 1)];
      return if w.present then Some(AddrOf(w)) else None;
    }

    /** `clone_kernel_mappings`: the destination frame becomes a copy of the active root's
        upper half over an empty lower half. In a tracked frame that is neither free nor a
        table that makes a new root. */
    method CloneKernelMappings(dst: Usize) returns (r: Result<()>)
      requires Valid() && dst / PAGE_SIZE < |pmm.ram|
      modifies `lvl, pmm`ram
      ensures Unused(old(lvl), pmm.total, pmm.Free(), dst / PAGE_SIZE) ==> Valid()
      ensures r == if !Aligned(dst) then Err(Unaligned) else if active == 0 then Err(NotInitialized) else Ok(())
      ensures r.Err? ==> Valid() && pmm.ram == old(pmm.ram) && lvl == old(lvl)
      ensures r.Ok? ==> active / PAGE_SIZE < |pmm.ram|
      ensures r.Ok? ==> pmm.ram == old(pmm.ram)[dst / PAGE_SIZE := Cloned(old(pmm.ram)[active / PAGE_SIZE])]
      ensures r.Ok? ==> var d := dst / PAGE_SIZE;
        lvl == if Unused(old(lvl), pmm.total, pmm.Free(), d) then old(lvl)[d := 4] else old(lvl)
    {
      if dst % PAGE_SIZE != 0 {
        return Err(Unaligned);
      }
      if active == 0 {
        return Err(NotInitialized);
      }
      var d, src := dst / PAGE_SIZE, active / PAGE_SIZE;
      ghost var m := pmm.ram;
      if Unused(lvl, pmm.total, pmm.Free(), d) {
        CloneRoot(m, lvl, src, d);
        CloneReach(m, lvl, src, d);
      }
      CopyUpper(d, src);
      if Unused(lvl, pmm.total, pmm.Free(), d) {
        lvl := lvl[d := 4];
      }
      return Ok(());
    }

    /** The two copying loops of `clone_kernel_mappings`. */
    method CopyUpper(d: nat, src: nat)
      requires d < |pmm.ram| && src < |pmm.ram|
      modifies pmm`ram
      ensures pmm.ram == old(pmm.ram)[d := Cloned(old(pmm.ram)[src])]
    {
      ghost var m := pmm.ram;
      for i := 0 to ENTRIES / 2
        invariant |pmm.ram| == |m| && pmm.ram == m[d := pmm.ram[d]]
        invariant forall j :: 0 <= j < i ==> pmm.ram[d][j] == ZERO
        invariant forall j :: i <= j < ENTRIES ==> pmm.ram[d][j] == m[d][j]
      {
        pmm.ram := pmm.ram[d := pmm.ram[d][i := ZERO]];
      }
      for i := ENTRIES / 2 to ENTRIES
        invariant |pmm.ram| == |m| && pmm.ram == m[d := pmm.ram[d]]
        invariant forall j :: 0 <= j < i ==> pmm.ram[d][j] == Cloned(m[src])[j]
        invariant forall j :: i <= j < ENTRIES ==> pmm.ram[d][j] == m[d][j]
      {
        pmm.ram := pmm.ram[d := pmm.ram[d][i := pmm.ram[src][i]]];
      }
      assert pmm.ram[d] == Cloned(m[src]);
    }

    /** The start of `init`: an empty root, made the active one. The root takes the lowest
        free frame; if that is frame 0, its address is the value that stands for no root,
        and the kernel counts as not initialized although `init` succeeded. */
    method InitRoot() returns (ok: bool)
      requires Valid() && lvl == map[]
      modifies this, pmm, pmm.bitmap
      ensures Valid() && (ok <==> old(pmm.Free()) != {}) && pmm.total == old(pmm.total)
      ensures !ok ==> active == old(active) && lvl == map[] && pmm.Free() == old(pmm.Free())
      ensures ok ==> Aligned(active) && lvl == map[active / PAGE_SIZE := 4]
      ensures ok ==> active / PAGE_SIZE in old(pmm.Free()) && pmm.Free() == old(pmm.Free()) - {active / PAGE_SIZE}
      ensures ok ==> Root(lvl, active / PAGE_SIZE) && (active != 0 <==> 0 !in old(pmm.Free()))
      ensures ok ==> forall q: nat :: q < PAGES ==> Lookup(pmm.ram, active / PAGE_SIZE, q) == None
    {
      var phys := pmm.AllocPageZeroed();
      if phys.None? {
        return false;
      }
      active := phys.value;
      lvl := map[phys.value / PAGE_SIZE := 4];
      BlankRoot(pmm.ram, phys.value / PAGE_SIZE);
      return true;
    }
  }

  /** Zero, which stands for no table, or the address of a root. */
  predicate RootAddr(lvl: Levels, pml4: nat) {
    pml4 == 0 || (Aligned(pml4) && Root(lvl, pml4 / PAGE_SIZE))
  }

  /** What mapping a page must return, given the memory and the free frames. */
  function MapOutcome(m: Ram, free: nat, pml4: Usize, virt: Usize, phys: Usize): Result<()> {
    if !Aligned(virt) || !Aligned(phys) then Err(Unaligned)
    else if pml4 == 0 then Err(NotInitialized)
    else if Missing(m, pml4 / PAGE_SIZE, PageOf(virt)) > free then Err(OutOfMemory)
    else if Lookup(m, pml4 / PAGE_SIZE, PageOf(virt)).Some? then Err(AlreadyMapped)
    else Ok(())
  }

  function UnmapOutcome(m: Ram, pml4: Usize, virt: Usize): Result<()> {
    if !Aligned(virt) then Err(Unaligned)
    else if pml4 == 0 then Err(NotInitialized)
    else if Lookup(m, pml4 / PAGE_SIZE, PageOf(virt)).None? then Err(NotMapped)
    else Ok(())
  }

  lemma PaidRefl(lvl: Levels, free: set<nat>)
    ensures Paid(lvl, free, lvl, free)
  {
  }

  lemma SameAt(m: Ram, m': Ram, lvl: Levels, r: nat, p: nat)
    requires SameLookups(m, m', lvl) && Root(lvl, r) && p < PAGES
    ensures Lookup(m', r, p) == Lookup(m, r, p)
  {
  }

  /** The entry for a new table: its frame, writable, executable, and for user mode if asked. */
  lemma TableWord(addr: nat, user: bool)
    requires addr / PAGE_SIZE < FRAMES
    ensures var w := SetWord(addr, Flags(true, user, false));
      w.present && w.writable && w.user == user && !w.nx && w.frame == addr / PAGE_SIZE
  {
    SetWordMeaning(addr, Flags(true, user, false));
  }

  lemma SetHere(m: Ram, m': Ram, lvl: Levels, r: nat, p: nat, o: Option<Word>)
    requires LookupSet(m, m', lvl, r, p, o) && Root(lvl, r) && p < PAGES
    ensures Lookup(m', r, p) == o
  {
  }

  lemma BlankRoot(m: Ram, r: nat)
    requires r < |m| && m[r] == Blank()
    ensures WellFormed(m, map[r := 4]) && UserReach(m, map[r := 4])
    ensures forall q: nat :: Lookup(m, r, q) == None
  {
    assert forall i :: At(m, r, i) == ZERO;
    forall q: nat ensures Lookup(m, r, q) == None {
      assert Tab(m, r, q, 3) == None;
      assert Tab(m, r, q, 2) == None;
    }
  }

  lemma RootTab(m: Ram, r: nat, p: nat)
    ensures Tab(m, r, p, 4) == Some(r)
  {
  }

  lemma GrowsTab(m: Ram, lvl: Levels, m': Ram, lvl': Levels, root: nat, r: nat, p: nat, k: nat)
    requires Grows(m, lvl, m', lvl', root) && Root(lvl, r) && 1 <= k <= 4
    ensures Root(lvl', r) && (Tab(m, r, p, k).Some? ==> Tab(m', r, p, k) == Tab(m, r, p, k))
    ensures k >= 2 && Open(m, r, p, k) ==> Open(m', r, p, k)
  {
  }
}
