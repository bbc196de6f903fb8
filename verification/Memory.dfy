/** Address spaces, shared regions and the loader on one virtual memory manager: what each
    keeps of the others, over every run of all their operations. */
module Memory {
  import opened Words
  import opened PageTables
  import opened Regions
  import opened Demand
  import P = Pmm
  import V = Vm
  import A = AddrSpace
  import S = SharedMem
  import L = Loader
  import X = Atxf
  import R = Remap

  // ----- steps of the loader and of shared memory, as steps of a run -----

  ghost function Worlds(hist: seq<L.Snap>): (ws: seq<A.World>)
    ensures |ws| == |hist| && forall i :: 0 <= i < |hist| ==> ws[i] == hist[i].w
  {
    seq(|hist|, i requires 0 <= i < |hist| => hist[i].w)
  }

  function FillOp(id: nat, part: L.Part): A.Op {
    A.Filled(id, part.seg.virt / PAGE_SIZE, MapWords(part.seg.phys, part.seg.size / PAGE_SIZE, part.flags))
  }

  function FillOps(id: nat, parts: seq<L.Part>): (ops: seq<A.Op>)
    ensures |ops| == |parts| && forall i :: 0 <= i < |parts| ==> ops[i] == FillOp(id, parts[i])
  {
    seq(|parts|, i requires 0 <= i < |parts| => FillOp(id, parts[i]))
  }

  /** Placing a segment fills a run of empty pages of its space. */
  lemma PlacedStep(p: L.Snap, p': L.Snap, id: nat, owner: nat, part: L.Part)
    requires id in p.w.spaces && L.Placed(p.w, p.f, p'.w, p'.f, id, owner, part.seg, part.flags) && part.flags.present
    requires L.SameRoots(p.w.lvl, p'.w.lvl) && Root(p.w.lvl, A.RootOf(p.w.spaces[id]))
    ensures A.Step(p.w, p'.w, FillOp(id, part))
  {
    hide Lookup, Patched, AllEmpty, MapWords, L.Spent;
    var n := part.seg.size / PAGE_SIZE;
    L.SizeInPages(n);
    A.RegionInUserHalf(part.seg.virt, part.seg.size);
    A.MapWordsPresent(part.seg.phys, n, part.flags);
    A.FillStep(p.w, p'.w, id, part.seg.virt / PAGE_SIZE, MapWords(part.seg.phys, n, part.flags));
  }

  /** A successful load is a run that fills one segment after the other. */
  lemma {:induction false} LoadRun(hist: seq<L.Snap>, parts: seq<L.Part>, id: nat, owner: nat, total: nat)
    requires L.Chain(hist, parts, id, owner, total) && A.Sound(hist[0].w)
    requires forall i :: 0 <= i < |parts| ==> parts[i].flags.present
    ensures A.Run(Worlds(hist), FillOps(id, parts))
    decreases |parts|
  {
    hide L.Placed, L.SameRoots, L.DataKept, A.Sound, A.Step, FillOp;
    if |parts| == 0 {
      assert Worlds(hist) == [hist[0].w] && FillOps(id, parts) == [];
    } else {
      var k := |parts| - 1;
      assert L.Chain(hist[..k + 1], parts[..k], id, owner, total);
      LoadRun(hist[..k + 1], parts[..k], id, owner, total);
      L.ChainAt(hist, parts, id, owner, total, k);
      PlacedStep(hist[k], hist[k + 1], id, owner, parts[k]);
      FillIsFill(id, parts[k]);
      assert A.Sound(Worlds(hist[..k + 1])[k]);
      A.SoundStep(hist[k].w, hist[k + 1].w, FillOp(id, parts[k]));
      A.RunExtend(Worlds(hist[..k + 1]), FillOps(id, parts[..k]), hist[k + 1].w, FillOp(id, parts[k]));
      assert Worlds(hist) == Worlds(hist[..k + 1]) + [hist[k + 1].w];
      assert FillOps(id, parts) == FillOps(id, parts[..k]) + [FillOp(id, parts[k])];
    }
  }

  lemma FillIsFill(id: nat, part: L.Part)
    ensures FillOp(id, part).Filled?
  {
  }

  /** Runs can be put together where one ends and the next begins. */
  lemma RunJoin(ws: seq<A.World>, ops: seq<A.Op>, vs: seq<A.World>, more: seq<A.Op>)
    requires A.Run(ws, ops) && A.Run(vs, more) && ws[|ops|] == vs[0]
    ensures A.Run(ws + vs[1..], ops + more) && (ws + vs[1..])[|ops + more|] == vs[|more|]
  {
    hide A.Sound, A.Step;
    var all, both := ws + vs[1..], ops + more;
    forall i | 0 <= i < |all| ensures A.Sound(all[i]) {
      if i >= |ws| { assert all[i] == vs[i - |ws| + 1]; }
    }
    forall i | 0 <= i < |both| ensures A.Step(all[i], all[i + 1], both[i]) {
      if i >= |ops| {
        assert all[i] == vs[i - |ops|] && all[i + 1] == vs[i - |ops| + 1] && both[i] == more[i - |ops|];
      }
    }
  }

  lemma RunFrom(ws: seq<A.World>, ops: seq<A.Op>, i: nat)
    requires A.Run(ws, ops) && i <= |ops|
    ensures A.Run(ws[i..], ops[i..])
  {
    hide A.Sound, A.Step;
  }

  /** Mapping or unmapping for the kernel spares the lower half of every space. */
  lemma OverlaySpares(m: Ram, m': Ram, lvl: Levels, kernel: nat, ws: map<nat, Option<Word>>)
    requires WellFormed(m, lvl) && Root(lvl, kernel) && Overlay(m, m', lvl, kernel, ws)
    ensures A.LowerKept(m, m', lvl, kernel)
  {
    hide Lookup;
    forall s: nat, q: nat | Root(lvl, s) && s != kernel && q < USER_PAGES ensures Lookup(m', s, q) == Lookup(m, s, q) {
      LowerHalfPrivate(m, lvl, kernel, s, q);
    }
  }

  lemma ForeignStep(w: A.World, w': A.World)
    requires w'.spaces == w.spaces && w'.kernel == w.kernel && (forall s :: Root(w.lvl, s) ==> Root(w'.lvl, s))
    requires A.LowerKept(w.ram, w'.ram, w.lvl, w.kernel)
    ensures A.Step(w, w', A.Foreign)
  {
    hide Lookup;
  }

  lemma UnseenStep(w: A.World, w': A.World)
    requires w'.spaces == w.spaces && w'.kernel == w.kernel && (forall s :: Root(w.lvl, s) ==> Root(w'.lvl, s))
    requires SameLookups(w.ram, w'.ram, w.lvl)
    ensures A.Step(w, w', A.Refused)
  {
    hide Lookup;
  }

  /** A step of the address spaces keeps every shared region's frames and pages: what it
      takes was free, what it frees was a table, and the kernel's translations stay. */
  lemma RegionsSurvive(
    regions: S.Table, held: S.Held, w: A.World, w': A.World, op: A.Op, f: set<nat>, f': set<nat>, total: nat)
    requires S.Owned(regions, w.lvl, total, f) && S.Backed(w.ram, w.kernel, held)
    requires A.Sound(w) && A.Step(w, w', op) && !op.Foreign?
    requires (forall p :: p in f' ==> p in f || p in w.lvl) && (forall t :: t in w'.lvl ==> t in f || t in w.lvl)
    ensures S.Owned(regions, w'.lvl, total, f') && S.Backed(w'.ram, w'.kernel, held)
  {
    hide Lookup;
    A.StepIsolates(w, w', op);
    S.StableElsewhere(regions, held, w.ram, w.lvl, f, w'.ram, w'.lvl, f', total, w.kernel);
  }

  lemma PaidFrames(lvl: Levels, f: set<nat>, lvl': Levels, f': set<nat>)
    requires Paid(lvl, f, lvl', f')
    ensures (forall p :: p in f' ==> p in f) && (forall t :: t in lvl' ==> t in f || t in lvl)
  {
    assert forall t :: t in lvl' ==> t in lvl'.Keys;
  }

  lemma SpentFrames(lvl: Levels, f: set<nat>, lvl': Levels, f': set<nat>, t: set<nat>)
    requires L.Spent(lvl, f, lvl', f', t)
    ensures (forall p :: p in f' ==> p in f) && (forall t :: t in lvl' ==> t in f || t in lvl)
  {
    assert forall t :: t in lvl' ==> t in lvl'.Keys;
  }

  /** A step about a space was asked for by its owner, which for a new space is its creator. */
  ghost predicate OwnAct(w: A.World, w': A.World, op: A.Op, caller: nat) {
    op.Refused? || op.Foreign? ||
    if op.Added? then op.id in w'.spaces && w'.spaces[op.id].owner == caller
    else op.id in w.spaces && w.spaces[op.id].owner == caller
  }

  ghost predicate OwnersAct(trail: seq<A.World>, ops: seq<A.Op>, callers: seq<nat>) {
    && |trail| == |ops| + 1 && |callers| == |ops|
    && forall i :: 0 <= i < |ops| ==> OwnAct(trail[i], trail[i + 1], ops[i], callers[i])
  }

  lemma OwnersNext(trail: seq<A.World>, ops: seq<A.Op>, callers: seq<nat>, w: A.World, op: A.Op, caller: nat)
    requires OwnersAct(trail, ops, callers) && OwnAct(trail[|ops|], w, op, caller)
    ensures OwnersAct(trail + [w], ops + [op], callers + [caller])
  {
    hide OwnAct;
  }

  /** The segments of a load were all placed for the owner of the space. */
  lemma {:induction false} LoadOwned(
    trail: seq<A.World>, ops: seq<A.Op>, callers: seq<nat>, hist: seq<L.Snap>, parts: seq<L.Part>, id: nat, owner: nat,
    total: nat)
    requires OwnersAct(trail, ops, callers) && L.Chain(hist, parts, id, owner, total) && trail[|ops|] == hist[0].w
    ensures |hist| == |parts| + 1
    ensures var trail', ops' := trail + Worlds(hist)[1..], ops + FillOps(id, parts);
      OwnersAct(trail', ops', callers + seq(|parts|, _ => owner))
    decreases |parts|
  {
    hide L.Placed, L.SameRoots, L.DataKept, OwnAct, FillOp;
    if |parts| == 0 {
      assert Worlds(hist)[1..] == [] && FillOps(id, parts) == [];
      assert trail + [] == trail && ops + [] == ops && callers + [] == callers;
    } else {
      var k := |parts| - 1;
      assert L.Chain(hist[..k + 1], parts[..k], id, owner, total);
      LoadOwned(trail, ops, callers, hist[..k + 1], parts[..k], id, owner, total);
      L.ChainAt(hist, parts, id, owner, total, k);
      FillIsOwn(hist[k], hist[k + 1], id, owner, parts[k]);
      var t, o, c := trail + Worlds(hist[..k + 1])[1..], ops + FillOps(id, parts[..k]), callers + seq(k, _ => owner);
      assert t[|o|] == hist[k].w;
      OwnersNext(t, o, c, hist[k + 1].w, FillOp(id, parts[k]), owner);
      assert t + [hist[k + 1].w] == trail + Worlds(hist)[1..];
      assert o + [FillOp(id, parts[k])] == ops + FillOps(id, parts);
      assert c + [owner] == callers + seq(|parts|, _ => owner);
    }
  }

  lemma FillIsOwn(p: L.Snap, p': L.Snap, id: nat, owner: nat, part: L.Part)
    requires id in p.w.spaces && L.Placed(p.w, p.f, p'.w, p'.f, id, owner, part.seg, part.flags)
    ensures OwnAct(p.w, p'.w, FillOp(id, part), owner)
  {
    hide Lookup, Patched, AllEmpty, L.Spent;
    A.UnmapRefusalMeaning(p.w.spaces, id, owner, part.seg.virt, part.seg.size);
  }

  class MemorySystem {
    const spaces: A.AddressSpaceManager
    const shared: S.SharedMemManager
    const loader: L.ExecLoader
    /** The worlds since the system came up, and the steps between them. */
    ghost var trail: seq<A.World>
    ghost var ops: seq<A.Op>
    /** The thread that asked for each step. */
    ghost var callers: seq<nat>

    ghost predicate Valid()
      reads this, spaces, shared, loader, spaces.vm, spaces.vm.pmm, spaces.vm.pmm.bitmap
    {
      && shared.vm == spaces.vm && loader.mgr == spaces && spaces.vm.active != 0
      && spaces.Valid() && shared.Valid()
      && A.Run(trail, ops) && trail[|ops|] == spaces.View() && OwnersAct(trail, ops, callers)
    }

    /** The managers share one set of page tables, with the kernel's root in place. */
    constructor (spaces: A.AddressSpaceManager, shared: S.SharedMemManager, loader: L.ExecLoader)
      requires spaces.Valid() && shared.Valid() && shared.vm == spaces.vm && loader.mgr == spaces
      requires spaces.vm.active != 0
      ensures Valid() && this.spaces == spaces && this.shared == shared && this.loader == loader
      ensures trail == [spaces.View()] && ops == [] && callers == []
    {
      this.spaces, this.shared, this.loader := spaces, shared, loader;
      trail, ops, callers := [spaces.View()], [], [];
      A.ValidIsSound(spaces);
    }

    method CreateSpace(owner: nat) returns (r: A.Result<nat>)
      requires Valid()
      modifies this, spaces, spaces.vm, spaces.vm.pmm, spaces.vm.pmm.bitmap
      ensures callers == old(callers) + [owner]
      ensures Valid() && ops == old(ops) + [if r.Ok? then A.Added(r.value) else A.Refused] && old(trail) <= trail
      ensures r.Ok? <==> old(spaces.vm.pmm.Free()) != {}
      ensures r.Ok? ==> r.value in spaces.spaces && spaces.spaces[r.value].owner == owner
    {
      hide A.Step, A.Sound, A.Run, A.Registered, S.Owned, S.Backed, S.Mapped, S.Tidy, WellFormed, UserReach, P.FreeSet;
      hide V.Housed, OwnersAct, SameLookups;
      ghost var w, f, total := spaces.View(), spaces.vm.pmm.Free(), spaces.vm.pmm.total;
      A.ValidIsSound(spaces);
      r := spaces.Create(owner);
      ghost var op := if r.Ok? then A.Added(r.value) else A.Refused;
      A.ValidIsSound(spaces);
      RegionsSurvive(shared.regions, shared.held, w, spaces.View(), op, f, spaces.vm.pmm.Free(), total);
      A.RunExtend(trail, ops, spaces.View(), op);
      OwnersNext(trail, ops, callers, spaces.View(), op, owner);
      trail, ops, callers := trail + [spaces.View()], ops + [op], callers + [owner];
    }

    method DestroySpace(id: nat, caller: nat) returns (r: A.Result<()>)
      requires Valid()
      modifies this, spaces, spaces.vm, spaces.vm.pmm, spaces.vm.pmm.bitmap
      ensures callers == old(callers) + [caller]
      ensures Valid() && old(trail) <= trail
      ensures ops == old(ops) + [if r.Ok? then A.Removed(id) else A.Refused]
      ensures r == if old(A.Ownership(spaces.spaces, id, caller)).Some?
        then A.Err(old(A.Ownership(spaces.spaces, id, caller)).value)
        else if old(spaces.spaces)[id].count > 0 then A.Err(A.InUse) else A.Ok(())
    {
      hide A.Step, A.Sound, A.Run, A.Registered, S.Owned, S.Backed, S.Mapped, S.Tidy, WellFormed, UserReach, P.FreeSet;
      hide V.Housed, OwnersAct, Paid, Grows, Undisturbed, A.Exact, Patched, Overlay, Lookup, SameLookups;
      ghost var w, f, total := spaces.View(), spaces.vm.pmm.Free(), spaces.vm.pmm.total;
      A.ValidIsSound(spaces);
      A.RegisteredRoots(spaces.spaces, spaces.vm.lvl, spaces.vm.active, spaces.nextId);
      r := spaces.Destroy(id, caller);
      ghost var op := if r.Ok? then A.Removed(id) else A.Refused;
      A.ValidIsSound(spaces);
      RegionsSurvive(shared.regions, shared.held, w, spaces.View(), op, f, spaces.vm.pmm.Free(), total);
      A.RunExtend(trail, ops, spaces.View(), op);
      OwnersNext(trail, ops, callers, spaces.View(), op, caller);
      trail, ops, callers := trail + [spaces.View()], ops + [op], callers + [caller];
    }

    method MapSpace(id: nat, caller: nat, virt: Usize, phys: Usize, size: Usize, flags: Word) returns (r: A.Result<()>)
      requires Valid()
      modifies this, spaces, spaces.vm, spaces.vm.pmm, spaces.vm.pmm.bitmap
      ensures callers == old(callers) + [caller]
      ensures Valid() && old(trail) <= trail
      ensures var refusal := old(A.MapRefusal(spaces.spaces, id, caller, virt, phys, size));
        var free := |old(spaces.vm.pmm.Free())|;
        && ops == old(ops) + [A.MapOp(r, refusal, id, virt, phys, size, flags, free)]
        && (refusal.Some? ==> r == A.Err(refusal.value))
        && (refusal.None? ==>
              var root, n := A.RootOf(old(spaces.spaces)[id]), A.PageCount(size);
              r.Ok? <==> root != 0 && Fits(old(spaces.vm.pmm.ram), root, virt, n, free))
    {
      hide A.Step, A.Sound, A.Run, A.Registered, S.Owned, S.Backed, S.Mapped, S.Tidy, WellFormed, UserReach, P.FreeSet;
      hide V.Housed, OwnersAct, Paid, Grows, Undisturbed, A.Exact, Patched, Overlay, Lookup, SameLookups;
      ghost var w, f, total := spaces.View(), spaces.vm.pmm.Free(), spaces.vm.pmm.total;
      A.ValidIsSound(spaces);
      ghost var refusal := A.MapRefusal(spaces.spaces, id, caller, virt, phys, size);
      r := spaces.MapRegion(id, caller, virt, phys, size, flags);
      ghost var op := A.MapOp(r, refusal, id, virt, phys, size, flags, |f|);
      A.ValidIsSound(spaces);
      PaidFrames(w.lvl, f, spaces.vm.lvl, spaces.vm.pmm.Free());
      RegionsSurvive(shared.regions, shared.held, w, spaces.View(), op, f, spaces.vm.pmm.Free(), total);
      A.RunExtend(trail, ops, spaces.View(), op);
      OwnersNext(trail, ops, callers, spaces.View(), op, caller);
      trail, ops, callers := trail + [spaces.View()], ops + [op], callers + [caller];
    }

    method UnmapSpace(id: nat, caller: nat, virt: Usize, size: Usize) returns (r: A.Result<()>)
      requires Valid()
      modifies this, spaces, spaces.vm, spaces.vm.pmm, spaces.vm.pmm.bitmap
      ensures callers == old(callers) + [caller]
      ensures Valid() && old(trail) <= trail
      ensures ops == old(ops) + [A.UnmapOp(old(spaces.View()), r, id, virt, size)]
      ensures r == if old(A.UnmapRefusal(spaces.spaces, id, caller, virt, size)).Some?
        then A.Err(old(A.UnmapRefusal(spaces.spaces, id, caller, virt, size)).value) else A.Ok(())
    {
      hide A.Step, A.Sound, A.Run, A.Registered, S.Owned, S.Backed, S.Mapped, S.Tidy, WellFormed, UserReach, P.FreeSet;
      hide V.Housed, OwnersAct, Paid, Grows, Undisturbed, A.Exact, Patched, Overlay, Lookup, SameLookups;
      ghost var w, f, total := spaces.View(), spaces.vm.pmm.Free(), spaces.vm.pmm.total;
      A.ValidIsSound(spaces);
      r := spaces.UnmapRegion(id, caller, virt, size);
      ghost var op := A.UnmapOp(w, r, id, virt, size);
      A.ValidIsSound(spaces);
      RegionsSurvive(shared.regions, shared.held, w, spaces.View(), op, f, spaces.vm.pmm.Free(), total);
      A.RunExtend(trail, ops, spaces.View(), op);
      OwnersNext(trail, ops, callers, spaces.View(), op, caller);
      trail, ops, callers := trail + [spaces.View()], ops + [op], callers + [caller];
    }

    /** A remap keeps everything when it is turned down, when both ranges lie in the lower
        half, and when it completes onto the same pages. In every other case the shared
        regions keep their pages exactly when they are spared, and more than lower-half
        pages of its own space change unless the remap is harmless. */
    method RemapSpace(id: nat, caller: nat, from: Usize, to: Usize, size: Usize) returns (r: A.Result<()>)
      requires Valid()
      modifies this, spaces, spaces.vm, spaces.vm.pmm, spaces.vm.pmm.bitmap
      ensures spaces.Valid() && old(trail) <= trail
      ensures A.RemapRefusal(spaces.spaces, id, caller, from, to, size).Some? || r == A.Err(A.NotMapped) ==>
        Valid() && ops == old(ops) + [A.Refused]
      ensures r.Ok? && PageOf(from) == PageOf(to) ==> Valid()
      ensures PageOf(from) + A.PageCount(size) <= USER_PAGES && PageOf(to) + A.PageCount(size) <= USER_PAGES ==> Valid()
      ensures A.RemapRefusal(spaces.spaces, id, caller, from, to, size).None? && r != A.Err(A.NotMapped) ==>
        var n, free := A.PageCount(size), |old(spaces.vm.pmm.Free())|;
        PageOf(from) + n <= USER_PAGES && PageOf(to) + n <= USER_PAGES ==>
          exists k :: 0 <= k <= n && ops == old(ops) + [A.Shifted(id, from, to, n, k, free)]
      ensures A.RemapRefusal(spaces.spaces, id, caller, from, to, size).None? && r != A.Err(A.NotMapped) ==>
        var m, root, n := old(spaces.vm.pmm.ram), A.RootOf(spaces.spaces[id]), A.PageCount(size);
        exists k :: 0 <= k <= n && (r.Ok? <==> k == n)
          && A.Relocates(old(spaces.View()), spaces.View(), root, from, to, n, k)
          && (A.OnlyLower(m, spaces.vm.pmm.ram, old(spaces.vm.lvl), root) <==> R.Harmless(m, root, from, to, n, k))
          && (shared.Valid() <==> Spared(old(spaces.View()), shared.held, root, from, to, n, k))
    {
      hide A.Step, A.Sound, A.Run, A.Registered, S.Owned, S.Backed, S.Mapped, S.Tidy, WellFormed, UserReach, P.FreeSet;
      hide V.Housed, OwnersAct, Paid, Grows, Undisturbed, A.Exact, Patched, Overlay, Lookup, SameLookups;
      hide A.Relocates, A.OnlyLower, A.Roomy, R.Harmless, R.SafeRanges, Full, PageOf, Spared;
      ghost var w, f, total := spaces.View(), spaces.vm.pmm.Free(), spaces.vm.pmm.total;
      A.ValidIsSound(spaces);
      A.RegisteredRoots(w.spaces, w.lvl, spaces.vm.active, spaces.nextId);
      r := spaces.RemapRegion(id, caller, from, to, size);
      ghost var n := A.PageCount(size);
      A.ValidIsSound(spaces);
      PaidFrames(w.lvl, f, spaces.vm.lvl, spaces.vm.pmm.Free());
      ghost var op := A.Refused;
      ghost var known := true;
      if A.RemapRefusal(spaces.spaces, id, caller, from, to, size).Some? || r == A.Err(A.NotMapped) {
      } else {
        ghost var root := A.RootOf(w.spaces[id]);
        ghost var k :| 0 <= k <= n && (r.Ok? <==> k == n) && A.Relocates(w, spaces.View(), root, from, to, n, k);
        A.PageCountPositive(size);
        R.RemapExact(w, spaces.View(), root, from, to, n, k);
        SparedIs(w, spaces.View(), shared.held, root, from, to, n, k);
        S.OwnedPaid(shared.regions, w.lvl, total, f, spaces.vm.lvl, spaces.vm.pmm.Free());
        if PageOf(from) + n <= USER_PAGES && PageOf(to) + n <= USER_PAGES {
          ghost var j :| 0 <= j <= n && A.Step(w, spaces.View(), A.Shifted(id, from, to, n, j, |f|));
          op := A.Shifted(id, from, to, n, j, |f|);
        } else if r.Ok? && PageOf(from) == PageOf(to) {
          GrowsRoots(w.ram, w.lvl, spaces.vm.pmm.ram, spaces.vm.lvl, root);
          InPlaceStep(w, spaces.View(), id, caller, from, to, size);
        } else {
          known := false;
        }
      }
      if known {
        RegionsSurvive(shared.regions, shared.held, w, spaces.View(), op, f, spaces.vm.pmm.Free(), total);
        A.RunExtend(trail, ops, spaces.View(), op);
        OwnersNext(trail, ops, callers, spaces.View(), op, caller);
        trail, ops, callers := trail + [spaces.View()], ops + [op], callers + [caller];
      }
    }

    /** A load either leaves everything but page tables as it was, up to a count that
        saturated, or fills its segments. */
    method Load(image: seq<X.Byte>, id: nat, owner: nat) returns (r: L.LoadResult<L.LoadedExecutable>)
      requires Valid()
      modifies this, spaces, spaces.vm, spaces.vm.pmm, spaces.vm.pmm.bitmap
      ensures Valid() && old(trail) <= trail && old(ops) <= ops
      ensures r.Failed? ==>
        exists pages :: 0 <= pages <= 2 * X.U32 && ops == old(ops) + [FailedOp(old(spaces.View()), id, pages)]
      ensures r.Loaded? ==> forall j :: |old(ops)| <= j < |ops| ==> ops[j].Filled? && ops[j].id == id
    {
      hide A.Step, A.Sound, A.Run, A.Registered, S.Owned, S.Backed, S.Mapped, S.Tidy, WellFormed, UserReach, P.FreeSet;
      hide V.Housed, OwnersAct, Paid, Grows, Undisturbed, A.Exact, Patched, Overlay, Lookup, SameLookups;
      hide L.Settled, L.Undone, L.Chain, L.LoadedAs, L.AllContain, L.Plan, L.Follows, X.ParseImage;
      ghost var w, f, total := spaces.View(), spaces.vm.pmm.Free(), spaces.vm.pmm.total;
      ghost var parts, hist;
      A.ValidIsSound(spaces);
      r, parts, hist := loader.LoadIntoAddressSpace(image, id, owner);
      ghost var w', f' := spaces.View(), spaces.vm.pmm.Free();
      A.ValidIsSound(spaces);
      if r.Failed? {
        ghost var pages := L.PagesOf(parts);
        ghost var op := FailedOp(w, id, pages);
        FailedStep(w, f, w', f', id, pages);
        RegionsSurvive(shared.regions, shared.held, w, w', op, f, f', total);
        A.RunExtend(trail, ops, w', op);
        OwnersNext(trail, ops, callers, w', op, owner);
        trail, ops, callers := trail + [w'], ops + [op], callers + [owner];
      } else {
        PartsPresent(X.ParseImage(image).value, parts);
        LoadExtends(trail, ops, shared.regions, shared.held, hist, parts, id, owner, total);
        LoadOwned(trail, ops, callers, hist, parts, id, owner, total);
        trail, ops := trail + Worlds(hist)[1..], ops + FillOps(id, parts);
        callers := callers + seq(|parts|, _ => owner);
      }
    }

    /** Regions change no translation when they are created or destroyed, and neither does a
        call that is turned down; only mapping and unmapping them is a step of the kernel. */
    method CreateRegion(owner: nat, size: Usize) returns (r: S.Result<nat>)
      requires Valid()
      modifies this, shared, spaces.vm.pmm, spaces.vm.pmm.bitmap
      ensures callers == old(callers) + [owner]
      ensures Valid() && ops == old(ops) + [A.Refused] && old(trail) <= trail
      ensures r.Ok? <==> 0 < A.PageCount(size) <= |old(spaces.vm.pmm.Free())|
      ensures r.Err? ==> r.error == if A.PageCount(size) == 0 then S.InvalidSize else S.OutOfMemory
      ensures r.Err? ==> shared.regions == old(shared.regions)
      ensures r.Ok? ==> r.value !in old(shared.regions) && r.value in shared.regions
      ensures r.Ok? ==> var g := shared.regions[r.value];
        && shared.regions == old(shared.regions)[r.value := g]
        && g.owner == owner && g.size == AlignUp(size) && g.mappings == []
    {
      hide A.Step, A.Sound, A.Run, A.Registered, S.Owned, S.Backed, S.Mapped, S.Tidy, WellFormed, UserReach, P.FreeSet;
      hide V.Housed, OwnersAct, Paid, Grows, Undisturbed, A.Exact, Patched, Overlay, Lookup, SameLookups;
      hide S.Taken, S.FrameSet, S.Wiped, S.InUseKept;
      ghost var w := spaces.View();
      r := shared.CreateRegion(owner, size);
      A.ValidIsSound(spaces);
      UnseenStep(w, spaces.View());
      A.RunExtend(trail, ops, spaces.View(), A.Refused);
      OwnersNext(trail, ops, callers, spaces.View(), A.Refused, owner);
      trail, ops, callers := trail + [spaces.View()], ops + [A.Refused], callers + [owner];
    }

    method MapShared(id: nat, thread: nat, virt: Usize, flags: S.RegionFlags) returns (r: S.Result<()>)
      requires Valid()
      modifies this, shared, spaces.vm, spaces.vm.pmm, spaces.vm.pmm.bitmap
      ensures callers == old(callers) + [thread]
      ensures Valid() && ops == old(ops) + [if r.Ok? then A.Foreign else A.Refused] && old(trail) <= trail
      ensures var m, active, free := old(spaces.vm.pmm.ram), spaces.vm.active, |old(spaces.vm.pmm.Free())|;
        r == S.MapResult(old(shared.regions), id, thread, virt, m, active, free)
      ensures r.Err? ==> shared.regions == old(shared.regions)
      ensures r.Ok? ==> id in old(shared.regions) && var g := old(shared.regions)[id];
        shared.regions == old(shared.regions)[id := S.Attached(g, S.Mapping(thread, virt, flags))]
    {
      hide A.Step, A.Sound, A.Run, A.Registered, S.Owned, S.Backed, S.Mapped, S.Tidy, WellFormed, UserReach, P.FreeSet;
      hide V.Housed, OwnersAct, Paid, Grows, Undisturbed, A.Exact, Patched, Overlay, Lookup, SameLookups;
      hide Fits, Needed, S.FrameWords, S.HasThread;
      ghost var w := spaces.View();
      r := shared.MapRegion(id, thread, virt, flags);
      GrowsRoots(w.ram, w.lvl, spaces.vm.pmm.ram, spaces.vm.lvl, w.kernel);
      A.RegisteredGrows(spaces.spaces, w.lvl, spaces.vm.lvl, spaces.vm.active, spaces.nextId);
      A.ValidIsSound(spaces);
      ghost var op := A.Refused;
      if r.Ok? {
        ghost var g := old(shared.regions)[id];
        ghost var words := S.FrameWords(virt, g.frames, S.ToPageFlags(flags), |g.frames|);
        OverlaySpares(w.ram, spaces.vm.pmm.ram, w.lvl, w.kernel, words);
        ForeignStep(w, spaces.View());
        op := A.Foreign;
      } else {
        UnseenStep(w, spaces.View());
      }
      A.RunExtend(trail, ops, spaces.View(), op);
      OwnersNext(trail, ops, callers, spaces.View(), op, thread);
      trail, ops, callers := trail + [spaces.View()], ops + [op], callers + [thread];
    }

    method UnmapShared(id: nat, thread: nat) returns (r: S.Result<()>)
      requires Valid()
      modifies this, shared, spaces.vm, spaces.vm.pmm, spaces.vm.pmm.bitmap
      ensures callers == old(callers) + [thread]
      ensures Valid() && ops == old(ops) + [if r.Ok? then A.Foreign else A.Refused] && old(trail) <= trail
      ensures r == if id !in old(shared.regions) then S.Err(S.InvalidRegion)
        else if !S.HasThread(old(shared.regions)[id], thread) then S.Err(S.NotMapped) else S.Ok(())
      ensures r.Err? ==> shared.regions == old(shared.regions)
      ensures r.Ok? ==> exists j :: 0 <= j < |old(shared.regions)[id].mappings| && var g := old(shared.regions)[id];
        g.mappings[j].thread == thread && shared.regions == old(shared.regions)[id := S.Detached(g, j)]
    {
      hide A.Step, A.Sound, A.Run, A.Registered, S.Owned, S.Backed, S.Mapped, S.Tidy, WellFormed, UserReach, P.FreeSet;
      hide V.Housed, OwnersAct, Paid, Grows, Undisturbed, A.Exact, Patched, Overlay, Lookup, SameLookups;
      hide Emptied, S.HasThread, S.Detached;
      ghost var w := spaces.View();
      SameRefl(w.ram, w.lvl);
      r := shared.UnmapRegion(id, thread);
      A.ValidIsSound(spaces);
      ghost var op := A.Refused;
      if r.Ok? {
        ghost var g := old(shared.regions)[id];
        ghost var j :| 0 <= j < |g.mappings|
          && Overlay(w.ram, spaces.vm.pmm.ram, w.lvl, w.kernel, Emptied(g.mappings[j].virt, |g.frames|));
        OverlaySpares(w.ram, spaces.vm.pmm.ram, w.lvl, w.kernel, Emptied(g.mappings[j].virt, |g.frames|));
        ForeignStep(w, spaces.View());
        op := A.Foreign;
      } else {
        UnseenStep(w, spaces.View());
      }
      A.RunExtend(trail, ops, spaces.View(), op);
      OwnersNext(trail, ops, callers, spaces.View(), op, thread);
      trail, ops, callers := trail + [spaces.View()], ops + [op], callers + [thread];
    }

    method DestroyRegion(id: nat, caller: nat) returns (r: S.Result<()>)
      requires Valid()
      modifies this, shared, spaces.vm.pmm, spaces.vm.pmm.bitmap
      ensures callers == old(callers) + [caller]
      ensures Valid() && ops == old(ops) + [A.Refused] && old(trail) <= trail
      ensures r == if id !in old(shared.regions) then S.Err(S.InvalidRegion)
        else if old(shared.regions)[id].owner != caller then S.Err(S.PermissionDenied)
        else if old(shared.regions)[id].mappings != [] then S.Err(S.RegionInUse) else S.Ok(())
      ensures shared.regions == if r.Ok? then old(shared.regions) - {id} else old(shared.regions)
    {
      hide A.Step, A.Sound, A.Run, A.Registered, S.Owned, S.Backed, S.Mapped, S.Tidy, WellFormed, UserReach, P.FreeSet;
      hide V.Housed, OwnersAct, Paid, Grows, Undisturbed, A.Exact, Patched, Overlay, Lookup, SameLookups;
      ghost var w := spaces.View();
      SameRefl(w.ram, w.lvl);
      r := shared.DestroyRegion(id, caller);
      A.ValidIsSound(spaces);
      UnseenStep(w, spaces.View());
      A.RunExtend(trail, ops, spaces.View(), A.Refused);
      OwnersNext(trail, ops, callers, spaces.View(), A.Refused, caller);
      trail, ops, callers := trail + [spaces.View()], ops + [A.Refused], callers + [caller];
    }

    /** Whatever the system did since state `i`, a space that none of those steps was about
        translates its lower half now as it did then. */
    lemma SpacesIsolated(i: nat, id: nat)
      requires Valid() && i <= |ops| && id in trail[i].spaces
      requires forall j :: i <= j < |ops| ==> !A.About(ops[j], id)
      ensures id in spaces.spaces
      ensures forall q: nat :: q < USER_PAGES ==> A.Trans(spaces.View(), id, q) == A.Trans(trail[i], id, q)
    {
      hide A.Sound, A.Step, Lookup;
      RunFrom(trail, ops, i);
      A.Isolation(trail[i..], ops[i..], id);
    }

    /** Nobody but its owner ever acts on a space: every recorded step about it was its owner's. */
    lemma OnlyOwnersAct(i: nat, id: nat)
      requires Valid() && i < |ops| && A.About(ops[i], id)
      ensures id in trail[i].spaces ==> trail[i].spaces[id].owner == callers[i]
      ensures id !in trail[i].spaces ==> ops[i].Added? && trail[i + 1].spaces[id].owner == callers[i]
    {
      hide A.Run, A.Sound, A.Step;
      assert OwnAct(trail[i], trail[i + 1], ops[i], callers[i]);
      AddedIsNew(trail, ops, i);
    }

    /** While a space exists its owner is the same. So as long as its owner does nothing, its
        lower half stays as it is, whatever all other threads do. */
    lemma StrangersHarmless(i: nat, id: nat)
      requires Valid() && i <= |ops|
      requires forall j :: i <= j <= |ops| ==> id in trail[j].spaces
      requires forall j :: i <= j < |ops| ==> callers[j] != trail[i].spaces[id].owner
      ensures forall q: nat :: q < USER_PAGES ==> A.Trans(spaces.View(), id, q) == A.Trans(trail[i], id, q)
    {
      hide A.Sound, A.Step, Lookup, OwnAct;
      forall j | i <= j < |ops| ensures !A.About(ops[j], id) {
        OwnerStays(trail, ops, i, j, id);
        if A.About(ops[j], id) { OnlyOwnersAct(j, id); }
      }
      SpacesIsolated(i, id);
    }

    /** If all counts were exact when the system came up, they are exact in every state since
        if and only if every step was careful; then every space destroyed mapped no page. */
    lemma CountsExact()
      requires Valid() && A.AllExact(trail[0])
      ensures (forall i :: 0 <= i <= |ops| ==> A.AllExact(trail[i])) <==>
              (forall i :: 0 <= i < |ops| ==> A.Careful(trail[i], ops[i]))
      ensures (forall i :: 0 <= i < |ops| ==> A.Careful(trail[i], ops[i])) ==> A.AllExact(spaces.View())
    {
      hide A.Sound, A.Step, A.AllExact, A.Careful;
      A.ExactRun(trail, ops);
      if forall i :: 0 <= i < |ops| ==> A.Careful(trail[i], ops[i]) {
        assert A.AllExact(trail[|ops|]);
      }
    }
  }

  lemma AddedIsNew(trail: seq<A.World>, ops: seq<A.Op>, i: nat)
    requires A.Run(trail, ops) && i < |ops|
    ensures ops[i].Added? ==> ops[i].id !in trail[i].spaces && ops[i].id in trail[i + 1].spaces
  {
    hide A.Sound, A.NewRoot;
    assert A.Step(trail[i], trail[i + 1], ops[i]);
  }

  lemma OwnerStep(w: A.World, w': A.World, op: A.Op, id: nat)
    requires A.Step(w, w', op) && id in w.spaces && id in w'.spaces
    ensures w'.spaces[id].owner == w.spaces[id].owner
  {
    hide A.NewRoot, SameLookups, A.LowerKept, Patched, A.Moved, AllEmpty, AllMapped, A.Clash, A.Roomy;
  }

  lemma {:induction false} OwnerStays(trail: seq<A.World>, ops: seq<A.Op>, i: nat, j: nat, id: nat)
    requires A.Run(trail, ops) && i <= j <= |ops| && forall k :: i <= k <= j ==> id in trail[k].spaces
    ensures trail[j].spaces[id].owner == trail[i].spaces[id].owner
    decreases j
  {
    hide A.Sound, A.Step;
    if i < j {
      OwnerStays(trail, ops, i, j - 1, id);
      assert A.Step(trail[j - 1], trail[j], ops[j - 1]);
      OwnerStep(trail[j - 1], trail[j], ops[j - 1], id);
    }
  }

  lemma LoadExtends(
    trail: seq<A.World>, ops: seq<A.Op>, regions: S.Table, held: S.Held,
    hist: seq<L.Snap>, parts: seq<L.Part>, id: nat, owner: nat, total: nat)
    requires L.Chain(hist, parts, id, owner, total) && A.Run(trail, ops) && trail[|ops|] == hist[0].w
    requires forall i :: 0 <= i < |parts| ==> parts[i].flags.present
    requires S.Owned(regions, hist[0].w.lvl, total, hist[0].f) && S.Backed(hist[0].w.ram, hist[0].w.kernel, held)
    ensures |hist| == |parts| + 1 && var trail', ops' := trail + Worlds(hist)[1..], ops + FillOps(id, parts);
      A.Run(trail', ops') && trail'[|ops'|] == hist[|parts|].w && trail <= trail'
    ensures var p := hist[|parts|]; S.Owned(regions, p.w.lvl, total, p.f) && S.Backed(p.w.ram, p.w.kernel, held)
  {
    hide L.Placed, L.SameRoots, L.DataKept, A.Sound, A.Step, S.Owned, S.Backed;
    assert A.Sound(trail[|ops|]);
    LoadRun(hist, parts, id, owner, total);
    LoadSurvives(regions, held, hist, parts, id, owner, total);
    RunJoin(trail, ops, Worlds(hist), FillOps(id, parts));
  }

  function FailedOp(w: A.World, id: nat, pages: nat): A.Op {
    if id in w.spaces && w.spaces[id].count + pages >= USIZE then A.TakenBack(id, pages) else A.Refused
  }

  lemma FailedStep(w: A.World, f: set<nat>, w': A.World, f': set<nat>, id: nat, pages: nat)
    requires L.Undone(w, f, w', f', id, pages) && pages < USIZE
    ensures A.Step(w, w', FailedOp(w, id, pages)) && !FailedOp(w, id, pages).Foreign?
    ensures (forall p :: p in f' ==> p in f) && (forall t :: t in w'.lvl ==> t in f || t in w.lvl)
  {
    hide Lookup;
    SpentFrames(w.lvl, f, w'.lvl, f', {});
  }

  lemma InPlaceStep(w: A.World, w': A.World, id: nat, caller: nat, from: Usize, to: Usize, size: Usize)
    requires A.RemapRefusal(w.spaces, id, caller, from, to, size).None? && PageOf(from) == PageOf(to)
    requires WellFormed(w.ram, w.lvl) && Root(w.lvl, A.RootOf(w.spaces[id])) && |w.ram| <= P.MAX_PAGES
    requires A.Relocates(w, w', A.RootOf(w.spaces[id]), from, to, A.PageCount(size), A.PageCount(size))
    requires w'.spaces == w.spaces && w'.kernel == w.kernel && (forall s :: Root(w.lvl, s) ==> Root(w'.lvl, s))
    ensures A.Step(w, w', A.Refused)
  {
    hide Lookup, Overlay, A.Placeable, PageOf;
    FullBound(w.ram, w.lvl, A.RootOf(w.spaces[id]), from, A.PageCount(size));
    R.SamePlace(w, w', A.RootOf(w.spaces[id]), from, to, A.PageCount(size));
  }

  /** Every page held by a region that the remap touches, and that the space shares with the
      kernel, gets the entry it had. */
  ghost predicate Spared(w: A.World, held: S.Held, r: nat, from: Usize, to: Usize, n: nat, k: nat)
    requires k <= n
  {
    var ws := A.Relocated(w.ram, r, from, to, n, k);
    forall p :: p in held && p in ws && Shares(w.ram, r, w.kernel, p) ==> ws[p] == Some(held[p].word)
  }

  lemma SparedIs(
    w: A.World, w': A.World, held: S.Held, r: nat, from: Usize, to: Usize, n: nat, k: nat)
    requires Root(w.lvl, w.kernel) && r != w.kernel && k <= n && A.Relocates(w, w', r, from, to, n, k)
    requires S.Backed(w.ram, w.kernel, held)
    ensures S.Backed(w'.ram, w.kernel, held) <==> Spared(w, held, r, from, to, n, k)
  {
    hide Lookup, A.Relocated, Full, A.Placeable;
  }

  lemma PartsPresent(s: X.Sections, parts: seq<L.Part>)
    requires L.Follows(parts, L.Plan(s))
    ensures forall i :: 0 <= i < |parts| ==> parts[i].flags.present
  {
    forall i | 0 <= i < |parts| ensures parts[i].flags.present {
      assert L.AsPlanned(parts[i]) == L.Plan(s)[i];
    }
  }

  /** A successful load keeps every shared region's frames and pages. */
  lemma {:induction false} LoadSurvives(
    regions: S.Table, held: S.Held, hist: seq<L.Snap>, parts: seq<L.Part>, id: nat, owner: nat, total: nat)
    requires L.Chain(hist, parts, id, owner, total) && A.Run(Worlds(hist), FillOps(id, parts))
    requires S.Owned(regions, hist[0].w.lvl, total, hist[0].f) && S.Backed(hist[0].w.ram, hist[0].w.kernel, held)
    ensures var p := hist[|parts|]; S.Owned(regions, p.w.lvl, total, p.f) && S.Backed(p.w.ram, p.w.kernel, held)
    decreases |parts|
  {
    hide L.SameRoots, L.DataKept, A.Sound, A.Step, S.Owned, S.Backed, Lookup, Patched;
    if |parts| > 0 {
      var k := |parts| - 1;
      assert L.Chain(hist[..k + 1], parts[..k], id, owner, total);
      assert A.Run(Worlds(hist[..k + 1]), FillOps(id, parts[..k]));
      LoadSurvives(regions, held, hist[..k + 1], parts[..k], id, owner, total);
      L.ChainAt(hist, parts, id, owner, total, k);
      var taken := P.Range(parts[k].seg.phys / PAGE_SIZE, parts[k].seg.size / PAGE_SIZE);
      SpentFrames(hist[k].w.lvl, hist[k].f, hist[k + 1].w.lvl, hist[k + 1].f, taken);
      assert A.Sound(Worlds(hist)[k]) && A.Step(Worlds(hist)[k], Worlds(hist)[k + 1], FillOps(id, parts)[k]);
      RegionsSurvive(
        regions, held, hist[k].w, hist[k + 1].w, FillOp(id, parts[k]), hist[k].f, hist[k + 1].f, total);
    }
  }
}
