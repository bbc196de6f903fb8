/** Loading an executable into an address space (kernel/src/executable.rs), with
    the rollback that undoes a load that fails half-way. */
module Loader {
  import opened Words
  import opened PageTables
  import opened Regions
  import opened Bytes
  import opened Atxf
  import P = Pmm
  import V = Vm
  import A = AddrSpace

  /** Far above any count of mapped pages, and far below where a count saturates. */

  const USER_EXEC_LOAD_BASE: Usize := 0x40_0000

  datatype LoadError = Parse(parse: ExecError) | OutOfMemory | AddressSpace(space: A.Error) | NonCanonicalLayout

  datatype LoadResult<+T> = Loaded(value: T) | Failed(error: LoadError)

  datatype Segment = Segment(virt: Usize, phys: Usize, size: Usize)

  // ----- bytes in frames -----

  function ByteAt(data: seq<Byte>, o: nat): Byte { if o < |data| then data[o] else 0 }

  /** The eight bytes from `o` on. */
  function Eight(data: seq<Byte>, o: nat): seq<Byte> {
    [ByteAt(data, o), ByteAt(data, o + 1), ByteAt(data, o + 2), ByteAt(data, o + 3),
     ByteAt(data, o + 4), ByteAt(data, o + 5), ByteAt(data, o + 6), ByteAt(data, o + 7)]
  }

  function Pow256(n: nat): nat { if n == 0 then 1 else 256 * Pow256(n - 1) }

  /** The number that bytes spell, the lowest first. */
  function Spell(bytes: seq<Byte>): (x: nat)
    ensures x < Pow256(|bytes|)
  {
    if bytes == [] then 0 else bytes[0] + 256 * Spell(bytes[1..])
  }

  /** A 64-bit number as the fields of a table word. */
  function ToWord(x: nat): Word {
    Word(x % 2 == 1, x / 2 % 2 == 1, x / 4 % 2 == 1, x / 8 % 512, x / 4096 % FRAMES,
         x / 0x10_0000_0000_0000 % 2048, x / 0x8000_0000_0000_0000 % 2 == 1)
  }

  /** Page `k` of `data`, zero-filled, as the contents of a frame. */
  function PageImage(data: seq<Byte>, k: nat): Table {
    seq(ENTRIES, j requires 0 <= j < ENTRIES => ToWord(Spell(Eight(data, k * PAGE_SIZE + 8 * j))))
  }

  function CopiedAt(m: Ram, s: nat, n: nat, data: seq<Byte>, f: nat): Table
    requires f < |m|
  {
    if s <= f < s + n then PageImage(data, f - s) else m[f]
  }

  /** `copy_nonoverlapping` of `data` into the zeroed frames `s .. s+n`. */
  function CopyIn(m: Ram, s: nat, n: nat, data: seq<Byte>): (m': Ram)
    ensures |m'| == |m|
  {
    seq<Table>(|m|, f requires 0 <= f < |m| => CopiedAt(m, s, n, data, f))
  }

  /** The bytes of frames `s .. s+n` are those of `data`, and zero after them. */
  ghost predicate Contains(m: Ram, s: nat, n: nat, data: seq<Byte>) {
    s + n <= |m| && forall o: nat :: o < n * PAGE_SIZE ==> MemByte(m, s, o) == if o < |data| then data[o] else 0
  }

  lemma ContainsKept(m: Ram, m': Ram, s: nat, n: nat, data: seq<Byte>)
    requires Contains(m, s, n, data) && |m'| == |m| && forall f: nat :: s <= f < s + n ==> m'[f] == m[f]
    ensures Contains(m', s, n, data)
  {
    hide Value, ByteOf;
    forall o: nat | o < n * PAGE_SIZE ensures MemByte(m', s, o) == MemByte(m, s, o) {
      assert s <= s + o / PAGE_SIZE < s + n;
    }
  }

  lemma ContainsFits(m: Ram, s: nat, n: nat, data: seq<Byte>)
    requires Contains(m, s, n, data)
    ensures s + n <= |m|
  {
  }

  lemma LowFields(x: nat)
    ensures x == 4096 * (x / 4096) + 8 * (x / 8 % 512) + 4 * (x / 4 % 2) + 2 * (x / 2 % 2) + x % 2
  {
    var c := x / 8;
    Halves(x);
    assert c / 512 == x / 4096;
    assert c == 512 * (c / 512) + c % 512;
  }

  lemma Halves(x: nat)
    ensures x == 8 * (x / 8) + 4 * (x / 4 % 2) + 2 * (x / 2 % 2) + x % 2
  {
    assert x / 4 == x / 2 / 2 && x / 8 == x / 4 / 2;
  }

  lemma HighFields(b: nat)
    ensures b == 0x8_0000_0000_0000 * (b / 0x8_0000_0000_0000) + FRAMES * (b / FRAMES % 2048) + b % FRAMES
  {
    var c := b / FRAMES;
    assert b == FRAMES * c + b % FRAMES;
    assert c / 2048 == b / 0x8_0000_0000_0000;
    assert c == 2048 * (c / 2048) + c % 2048;
  }

  /** Splitting a number into the fields of a word loses nothing. */
  lemma WordValue(x: nat)
    requires x < USIZE
    ensures Value(ToWord(x)) == x
  {
    LowFields(x);
    var b := x / 4096;
    HighFields(b);
    assert x / 0x10_0000_0000_0000 == b / FRAMES && x / 0x8000_0000_0000_0000 == b / 0x8_0000_0000_0000 < 2;
  }

  lemma {:induction false} SpellByte(bytes: seq<Byte>, j: nat)
    requires j < |bytes|
    ensures ByteOf(Spell(bytes), j) == bytes[j]
    decreases j
  {
    if j > 0 { SpellByte(bytes[1..], j - 1); }
  }

  lemma SpellBound(bytes: seq<Byte>)
    requires |bytes| == 8
    ensures Spell(bytes) < USIZE
  {
    assert Pow256(4) == 0x1_0000_0000;
    assert Pow256(8) == USIZE;
  }

  lemma ImageByte(data: seq<Byte>, k: nat, o: nat)
    requires o < PAGE_SIZE
    ensures ByteOf(Value(PageImage(data, k)[o / 8]), o % 8) == ByteAt(data, k * PAGE_SIZE + o) as nat
  {
    hide ToWord, Value, ByteOf, Spell;
    var x := k * PAGE_SIZE + 8 * (o / 8);
    var bytes := Eight(data, x);
    assert PageImage(data, k)[o / 8] == ToWord(Spell(bytes));
    SpellBound(bytes);
    WordValue(Spell(bytes));
    SpellByte(bytes, o % 8);
    assert x + o % 8 == k * PAGE_SIZE + o;
    assert bytes[o % 8] == ByteAt(data, x + o % 8);
  }

  /** What was copied in can be read back. */
  lemma CopiedBytes(m: Ram, s: nat, n: nat, data: seq<Byte>)
    requires s + n <= |m|
    ensures Contains(CopyIn(m, s, n, data), s, n, data)
  {
    hide Value, ByteOf, PageImage;
    forall o: nat | o < n * PAGE_SIZE
      ensures MemByte(CopyIn(m, s, n, data), s, o) == if o < |data| then data[o] else 0
    {
      var k := o / PAGE_SIZE;
      ImageByte(data, k, o % PAGE_SIZE);
      assert k * PAGE_SIZE + o % PAGE_SIZE == o && k < n;
      assert CopyIn(m, s, n, data)[s + k] == PageImage(data, k);
    }
  }

  /** Frames that were neither free nor tables keep their contents. */
  ghost predicate DataKept(m: Ram, lvl: Levels, free: set<nat>, m': Ram) {
    |m'| == |m| && forall f: nat :: f < |m| && f !in free && f !in lvl ==> m'[f] == m[f]
  }

  // ----- what was taken from the free set -----

  /** Of the frames no longer free, those in `taken` are the caller's and the rest
      are the new tables. */
  ghost predicate Spent(lvl: Levels, f: set<nat>, lvl': Levels, f': set<nat>, taken: set<nat>) {
    f' <= f && taken <= f - f' && lvl'.Keys == lvl.Keys + (f - f' - taken)
  }

  lemma SpentTransitive(
    l: Levels, f: set<nat>, l1: Levels, f1: set<nat>, t1: set<nat>, l2: Levels, f2: set<nat>, t2: set<nat>)
    requires Spent(l, f, l1, f1, t1) && Spent(l1, f1, l2, f2, t2)
    ensures Spent(l, f, l2, f2, t1 + t2) && t1 !! t2
  {
    assert f - f2 - (t1 + t2) == (f - f1 - t1) + (f1 - f2 - t2);
  }

  lemma GivenBack(l: Levels, f: set<nat>, l': Levels, f': set<nat>, t1: set<nat>, t2: set<nat>)
    requires Spent(l, f, l', f', t1 + t2) && t1 !! t2
    ensures Spent(l, f, l', f' + t2, t1)
  {
    assert f - (f' + t2) - t1 == f - f' - (t1 + t2);
  }

  /** Filling frames that are no tables is invisible to every translation. */
  lemma FillFrames(m: Ram, lvl: Levels, m': Ram, s: nat, n: nat)
    requires WellFormed(m, lvl) && UserReach(m, lvl) && |m'| == |m|
    requires forall f: nat :: f < |m| && !(s <= f < s + n) ==> m'[f] == m[f]
    requires forall f: nat :: s <= f < s + n ==> f !in lvl
    ensures WellFormed(m', lvl) && UserReach(m', lvl) && SameLookups(m, m', lvl)
  {
    DataWrite(m, m', lvl);
  }

  class ExecLoader {
    const mgr: A.AddressSpaceManager

    constructor (mgr: A.AddressSpaceManager)
      requires mgr.Valid()
      ensures mgr.Valid() && this.mgr == mgr
    {
      this.mgr := mgr;
    }

    /** Takes `pages` zeroed frames and copies `data` into them. */
    method TakeFrames(data: seq<Byte>, pages: nat) returns (r: Option<Usize>)
      requires mgr.vm.Valid() && pages > 0
      modifies mgr.vm.pmm, mgr.vm.pmm.bitmap
      ensures mgr.vm.Valid() && mgr.vm.pmm.total == old(mgr.vm.pmm.total)
      ensures SameLookups(old(mgr.vm.pmm.ram), mgr.vm.pmm.ram, mgr.vm.lvl)
      ensures DataKept(old(mgr.vm.pmm.ram), mgr.vm.lvl, old(mgr.vm.pmm.Free()), mgr.vm.pmm.ram)
      ensures r.None? ==> mgr.vm.pmm.Free() == old(mgr.vm.pmm.Free())
      ensures r.Some? ==> Aligned(r.value) && r.value / PAGE_SIZE + pages <= mgr.vm.pmm.total
      ensures r.Some? ==> P.RunFree(old(mgr.vm.pmm.Free()), r.value / PAGE_SIZE, pages)
      ensures r.Some? ==> mgr.vm.pmm.Free() == old(mgr.vm.pmm.Free()) - P.Range(r.value / PAGE_SIZE, pages)
      ensures r.Some? ==> Contains(mgr.vm.pmm.ram, r.value / PAGE_SIZE, pages, data)
    {
      hide WellFormed, UserReach, Lookup, SameLookups, P.FreeSet, PageImage, Contains;
      ghost var m, f := mgr.vm.pmm.ram, mgr.vm.pmm.Free();
      SameRefl(m, mgr.vm.lvl);
      r := mgr.vm.pmm.AllocPagesZeroed(pages);
      if r.None? {
        return;
      }
      ghost var s := r.value / PAGE_SIZE;
      CopiedBytes(mgr.vm.pmm.ram, s, pages, data);
      mgr.vm.pmm.ram := CopyIn(mgr.vm.pmm.ram, r.value / PAGE_SIZE, pages, data);
      assert forall g: nat :: s <= g < s + pages ==> g in P.Range(s, pages);
      FillFrames(m, mgr.vm.lvl, mgr.vm.pmm.ram, s, pages);
    }

    /** Frees the frames of a segment; what else was taken stays taken. */
    method ReturnFrames(phys: Usize, pages: nat, ghost lvl: Levels, ghost f: set<nat>, ghost rest: set<nat>)
      requires mgr.Valid() && Aligned(phys) && phys / PAGE_SIZE + pages <= mgr.vm.pmm.total
      requires Spent(lvl, f, mgr.vm.lvl, mgr.vm.pmm.Free(), rest + P.Range(phys / PAGE_SIZE, pages))
      requires rest !! P.Range(phys / PAGE_SIZE, pages) && V.Housed(lvl, mgr.vm.pmm.total, f)
      modifies mgr.vm.pmm`free, mgr.vm.pmm.bitmap
      ensures mgr.Valid() && Spent(lvl, f, mgr.vm.lvl, mgr.vm.pmm.Free(), rest)
    {
      hide WellFormed, UserReach, P.FreeSet, P.Range, P.Released, A.Registered;
      ghost var s, l2, f2 := phys / PAGE_SIZE, mgr.vm.lvl, mgr.vm.pmm.Free();
      P.ReleasedRange(s, pages, mgr.vm.pmm.total);
      mgr.vm.pmm.FreePages(phys, pages);
      GivenBack(lvl, f, l2, f2, rest, P.Range(s, pages));
      HousedBack(l2, f2, mgr.vm.pmm.total, lvl, f, rest, P.Range(s, pages));
    }

    /** The common body of `map_segment` and `map_zeroed_segment`: frames are taken,
        filled and mapped, or given back. */
    method Place(
      id: nat, owner: nat, virt: Usize, data: seq<Byte>, pages: nat, flags: Word)
      returns (r: LoadResult<Segment>)
      requires mgr.Valid() && pages > 0 && pages * PAGE_SIZE < USIZE && flags.present
      modifies mgr`spaces, mgr.vm`lvl, mgr.vm.pmm, mgr.vm.pmm.bitmap
      ensures mgr.Valid() && mgr.vm.pmm.total == old(mgr.vm.pmm.total)
      ensures SameRoots(old(mgr.vm.lvl), mgr.vm.lvl)
      ensures DataKept(old(mgr.vm.pmm.ram), old(mgr.vm.lvl), old(mgr.vm.pmm.Free()), mgr.vm.pmm.ram)
      ensures r.Failed? ==> Settled(old(mgr.View()), old(mgr.vm.pmm.Free()), mgr.View(), mgr.vm.pmm.Free())
      ensures r.Loaded? ==> r.value == Segment(virt, r.value.phys, pages * PAGE_SIZE) && id in old(mgr.spaces)
      ensures r.Loaded? ==>
        Placed(old(mgr.View()), old(mgr.vm.pmm.Free()), mgr.View(), mgr.vm.pmm.Free(), id, owner, r.value, flags)
      ensures r.Loaded? ==> Contains(mgr.vm.pmm.ram, r.value.phys / PAGE_SIZE, pages, data)
    {
      hide WellFormed, UserReach, Lookup, SameLookups, P.FreeSet, P.Range, P.RunFree, P.Released, PageImage, Grows;
      hide Patched, Paid, Spent, DataKept, Contains, A.Step, A.Registered, SameRoots, AllEmpty, MapWords, Undisturbed;
      hide A.Exact, Placed, A.MapRefusal, A.PageCount;
      ghost var w, f := mgr.View(), mgr.vm.pmm.Free();
      NothingSpent(w.lvl, f);
      var phys := TakeFrames(data, pages);
      if phys.None? {
        return Failed(OutOfMemory);
      }
      ghost var s, m1, f1 := phys.value / PAGE_SIZE, mgr.vm.pmm.ram, mgr.vm.pmm.Free();
      var size := pages * PAGE_SIZE;
      SizeInPages(pages);
      var e := mgr.MapRegion(id, owner, virt, phys.value, size, flags);
      Placing(w.ram, w.lvl, f, m1, f1, mgr.vm.pmm.ram, mgr.vm.lvl, mgr.vm.pmm.Free(), s, pages, data);
      if e.Ok? {
        A.RegisteredRoots(w.spaces, w.lvl, mgr.vm.active, mgr.nextId);
        PlacedIntro(w, f, m1, mgr.View(), mgr.vm.pmm.Free(), id, owner, virt, phys.value, pages, flags);
        return Loaded(Segment(virt, phys.value, size));
      }
      assert {} + P.Range(s, pages) == P.Range(s, pages);
      ReturnFrames(phys.value, pages, w.lvl, f, {});
      SameTransitive(w.ram, m1, mgr.vm.pmm.ram, w.lvl);
      return Failed(AddressSpace(e.error));
    }

    /** `map_segment`: nothing to do for empty data. */
    method MapSegment(
      id: nat, owner: nat, virt: Usize, data: seq<Byte>, flags: Word)
      returns (r: LoadResult<Option<Segment>>)
      requires mgr.Valid() && flags.present && |data| < U32
      modifies mgr`spaces, mgr.vm`lvl, mgr.vm.pmm, mgr.vm.pmm.bitmap
      ensures mgr.Valid() && mgr.vm.pmm.total == old(mgr.vm.pmm.total)
      ensures DataKept(old(mgr.vm.pmm.ram), old(mgr.vm.lvl), old(mgr.vm.pmm.Free()), mgr.vm.pmm.ram)
      ensures r.Failed? ==> Settled(old(mgr.View()), old(mgr.vm.pmm.Free()), mgr.View(), mgr.vm.pmm.Free())
      ensures r.Loaded? ==> (r.value.None? <==> data == [])
      ensures r.Loaded? && r.value.None? ==>
        mgr.View() == old(mgr.View()) && mgr.vm.pmm.Free() == old(mgr.vm.pmm.Free())
      ensures r.Loaded? && r.value.Some? ==> var seg := r.value.value;
        && seg == Segment(virt, seg.phys, AlignUp(|data|)) && id in old(mgr.spaces)
        && Placed(old(mgr.View()), old(mgr.vm.pmm.Free()), mgr.View(), mgr.vm.pmm.Free(), id, owner, seg, flags)
        && SameRoots(old(mgr.vm.lvl), mgr.vm.lvl)
        && Contains(mgr.vm.pmm.ram, seg.phys / PAGE_SIZE, seg.size / PAGE_SIZE, data)
    {
      hide WellFormed, UserReach, P.FreeSet, DataKept, Placed, Settled, Contains, A.Registered;
      if data == [] {
        DataKeptRefl(mgr.vm.pmm.ram, mgr.vm.lvl, mgr.vm.pmm.Free());
        return Loaded(None);
      }
      AlignUpMeaning(|data|);
      var pages := AlignUp(|data|) / PAGE_SIZE;
      var p := Place(id, owner, virt, data, pages, flags);
      return if p.Failed? then Failed(p.error) else Loaded(Some(p.value));
    }

    /** `map_zeroed_segment`. */
    method MapZeroedSegment(
      id: nat, owner: nat, virt: Usize, size: nat, flags: Word)
      returns (r: LoadResult<Option<Segment>>)
      requires mgr.Valid() && flags.present && size < 2 * U32
      modifies mgr`spaces, mgr.vm`lvl, mgr.vm.pmm, mgr.vm.pmm.bitmap
      ensures mgr.Valid() && mgr.vm.pmm.total == old(mgr.vm.pmm.total)
      ensures DataKept(old(mgr.vm.pmm.ram), old(mgr.vm.lvl), old(mgr.vm.pmm.Free()), mgr.vm.pmm.ram)
      ensures r.Failed? ==> Settled(old(mgr.View()), old(mgr.vm.pmm.Free()), mgr.View(), mgr.vm.pmm.Free())
      ensures r.Loaded? ==> (r.value.None? <==> size == 0)
      ensures r.Loaded? && r.value.None? ==>
        mgr.View() == old(mgr.View()) && mgr.vm.pmm.Free() == old(mgr.vm.pmm.Free())
      ensures r.Loaded? && r.value.Some? ==> var seg := r.value.value;
        && seg == Segment(virt, seg.phys, AlignUp(size)) && id in old(mgr.spaces)
        && Placed(old(mgr.View()), old(mgr.vm.pmm.Free()), mgr.View(), mgr.vm.pmm.Free(), id, owner, seg, flags)
        && SameRoots(old(mgr.vm.lvl), mgr.vm.lvl)
        && Contains(mgr.vm.pmm.ram, seg.phys / PAGE_SIZE, seg.size / PAGE_SIZE, [])
    {
      hide WellFormed, UserReach, P.FreeSet, DataKept, Placed, Settled, Contains, A.Registered;
      if size == 0 {
        DataKeptRefl(mgr.vm.pmm.ram, mgr.vm.lvl, mgr.vm.pmm.Free());
        return Loaded(None);
      }
      AlignUpMeaning(size);
      var pages := AlignUp(size) / PAGE_SIZE;
      var p := Place(id, owner, virt, [], pages, flags);
      return if p.Failed? then Failed(p.error) else Loaded(Some(p.value));
    }

    /** One turn of the rollback guard: undoes the latest segment that is still in
        place, given that everything after it has been undone. */
    method Undo(
      id: nat, owner: nat, seg: Segment, ghost flags: Word, ghost w: A.World, ghost f: set<nat>, ghost w1: A.World,
      ghost f1: set<nat>, ghost pages: nat)
      requires mgr.Valid() && id in w.spaces && Placed(w, f, w1, f1, id, owner, seg, flags)
      requires Undone(w1, f1, mgr.View(), mgr.vm.pmm.Free(), id, pages) && SameRoots(w.lvl, w1.lvl)
      requires DataKept(w.ram, w.lvl, f, w1.ram)
      requires Root(w.lvl, A.RootOf(w.spaces[id])) && V.Housed(w.lvl, mgr.vm.pmm.total, f)
      requires pages + seg.size / PAGE_SIZE < USIZE && forall p :: p in f ==> p < mgr.vm.pmm.total
      modifies mgr`spaces, mgr.vm`lvl, mgr.vm.pmm, mgr.vm.pmm.bitmap
      ensures mgr.Valid() && mgr.vm.pmm.total == old(mgr.vm.pmm.total)
      ensures Undone(w, f, mgr.View(), mgr.vm.pmm.Free(), id, pages + seg.size / PAGE_SIZE)
    {
      hide WellFormed, UserReach, Lookup, SameLookups, P.FreeSet, P.Range, Patched, Spent, AllEmpty, MapWords, Nones;
      hide Undisturbed, A.Registered, A.Step, A.Exact, DataKept, A.Capped, A.Lowered, Undone, SameRoots, Placed;
      hide V.Housed, UserPages, A.UnmapOp, A.Counted, A.UnmapRefusal, Grows;
      ghost var w2, f2 := mgr.View(), mgr.vm.pmm.Free();
      var n := seg.size / PAGE_SIZE;
      ghost var t := P.Range(seg.phys / PAGE_SIZE, n);
      UndoReady(w, f, w1, f1, w2, f2, id, owner, seg, flags, pages);
      var u := mgr.UnmapRegion(id, owner, seg.virt, seg.size);
      UndoStep(w, f, w1, f1, w2, f2, mgr.View(), id, owner, seg, flags, pages);
      assert {} + t == t;
      TakenInside(w.lvl, f, mgr.vm.lvl, f2, seg.phys / PAGE_SIZE, n, mgr.vm.pmm.total);
      ReturnFrames(seg.phys, n, w.lvl, f, {});
      UndoneIs(w, f, mgr.View(), mgr.vm.pmm.Free(), id, pages + n);
    }

    /** The rollback guard: undoes the tracked segments, latest first. */
    method Rollback(id: nat, owner: nat, tracked: seq<Segment>, ghost hist: seq<Snap>, ghost parts: seq<Part>)
      requires mgr.Valid() && Chain(hist, parts, id, owner, mgr.vm.pmm.total) && Tracks(tracked, parts)
      requires Settled(hist[|parts|].w, hist[|parts|].f, mgr.View(), mgr.vm.pmm.Free()) && PagesOf(parts) < USIZE
      modifies mgr`spaces, mgr.vm`lvl, mgr.vm.pmm, mgr.vm.pmm.bitmap
      ensures mgr.Valid() && mgr.vm.pmm.total == old(mgr.vm.pmm.total)
      ensures Undone(hist[0].w, hist[0].f, mgr.View(), mgr.vm.pmm.Free(), id, PagesOf(parts))
    {
      hide WellFormed, UserReach, P.FreeSet, Settled, Undone, Placed, SnapOk, DataKept, A.Registered;
      var i := |tracked|;
      assert parts[..i] == parts;
      UndoneSettled(hist[i].w, hist[i].f, mgr.View(), mgr.vm.pmm.Free(), id, 0);
      while i > 0
        invariant 0 <= i <= |tracked| && mgr.Valid() && mgr.vm.pmm.total == old(mgr.vm.pmm.total)
        invariant PagesOf(parts[..i]) <= PagesOf(parts)
        invariant Undone(
          hist[i].w, hist[i].f, mgr.View(), mgr.vm.pmm.Free(), id, PagesOf(parts) - PagesOf(parts[..i]))
      {
        ghost var pages := PagesOf(parts) - PagesOf(parts[..i]);
        i := i - 1;
        PagesNext(parts, i);
        ChainAt(hist, parts, id, owner, mgr.vm.pmm.total, i);
        Undo(id, owner, tracked[i], parts[i].flags, hist[i].w, hist[i].f, hist[i + 1].w, hist[i + 1].f, pages);
      }
    }

    /** A load in progress: the segments placed so far, their history up to now,
        and their contents in memory. */
    ghost predicate InProgress(tracked: seq<Segment>, hist: seq<Snap>, parts: seq<Part>, id: nat, owner: nat)
      reads mgr, mgr.vm, mgr.vm.pmm, mgr.vm.pmm.bitmap
    {
      && Chain(hist, parts, id, owner, mgr.vm.pmm.total) && Tracks(tracked, parts)
      && hist[|parts|] == Snap(mgr.View(), mgr.vm.pmm.Free()) && AllContain(mgr.vm.pmm.ram, parts)
      && PagesOf(parts) <= |parts| * U32
    }

    /** Tracking a segment that was just placed. */
    ghost method Track(tracked: seq<Segment>, hist: seq<Snap>, parts: seq<Part>, id: nat, owner: nat, part: Part)
      returns (hist': seq<Snap>, parts': seq<Part>)
      requires mgr.Valid() && Chain(hist, parts, id, owner, mgr.vm.pmm.total) && Tracks(tracked, parts) && |parts| < 3
      requires var p := hist[|parts|];
        && SnapOk(p, id, mgr.vm.pmm.total)
        && Placed(p.w, p.f, mgr.View(), mgr.vm.pmm.Free(), id, owner, part.seg, part.flags)
        && SameRoots(p.w.lvl, mgr.vm.lvl) && DataKept(p.w.ram, p.w.lvl, p.f, mgr.vm.pmm.ram)
        && AllContain(p.w.ram, parts)
      requires Contains(mgr.vm.pmm.ram, part.seg.phys / PAGE_SIZE, part.seg.size / PAGE_SIZE, part.data)
      requires part.seg.size <= U32 && PagesOf(parts) <= |parts| * U32
      ensures parts' == parts + [part] && |hist'| == |hist| + 1 && hist'[0] == hist[0]
      ensures InProgress(tracked + [part.seg], hist', parts', id, owner) && id in mgr.spaces
    {
      hide WellFormed, UserReach, P.FreeSet, A.Registered, Placed, Contains, DataKept, SameRoots;
      assert SnapOk(hist[0], id, mgr.vm.pmm.total);
      var now := Snap(mgr.View(), mgr.vm.pmm.Free());
      assert (parts + [part])[..|parts|] == parts;
      PlacedKeeps(hist[|parts|], now, id, owner, part);
      ExtendChain(hist, parts, id, owner, mgr.vm.pmm.total, now, part);
      PartsKept(hist, parts, id, owner, mgr.vm.pmm.total, mgr.vm.pmm.ram);
      hist', parts' := hist + [now], parts + [part];
    }

    /** The data segment of `do_load`, with the guard's rollback when it fails. */
    method AddData(
      s: Sections, id: nat, owner: nat, tracked: seq<Segment>, ghost hist: seq<Snap>, ghost parts: seq<Part>)
      returns (r: LoadResult<seq<Segment>>, ghost hist': seq<Snap>, ghost parts': seq<Part>)
      requires mgr.Valid() && Loadable(s) && id in mgr.spaces && |parts| < 3
      requires InProgress(tracked, hist, parts, id, owner)
      modifies mgr`spaces, mgr.vm`lvl, mgr.vm.pmm, mgr.vm.pmm.bitmap
      ensures mgr.Valid() && mgr.vm.pmm.total == old(mgr.vm.pmm.total)
      ensures r.Failed? ==> parts' == parts
      ensures r.Failed? ==> Undone(hist[0].w, hist[0].f, mgr.View(), mgr.vm.pmm.Free(), id, PagesOf(parts))
      ensures r.Loaded? ==> InProgress(r.value, hist', parts', id, owner) && hist'[0] == hist[0] && id in mgr.spaces
      ensures r.Loaded? && s.data == [] ==> parts' == parts
      ensures r.Loaded? && s.data != [] ==>
        && |parts'| == |parts| + 1 && parts'[..|parts|] == parts
        && AsPlanned(parts'[|parts|]) == Planned(DataBase(s), AlignUp(|s.data|), DATA_FLAGS, s.data)
    {
      hide WellFormed, UserReach, P.FreeSet, A.Registered, Placed, Contains, DataKept, SameRoots, Settled, Chain;
      hide Undone, AllContain, AlignUp, DataBase;
      LayoutMeaning(s);
      hist', parts' := hist, parts;
      A.RegisteredRoots(mgr.spaces, mgr.vm.lvl, mgr.vm.active, mgr.nextId);
      var data := MapSegment(id, owner, DataBase(s), s.data, DATA_FLAGS);
      if data.Failed? {
        Rollback(id, owner, tracked, hist, parts);
        return Failed(data.error), hist', parts';
      }
      if data.value.None? {
        return Loaded(tracked), hist', parts';
      }
      hist', parts' := Track(tracked, hist, parts, id, owner, Part(data.value.value, DATA_FLAGS, s.data));
      return Loaded(tracked + [data.value.value]), hist', parts';
    }

    /** The bss segment of `do_load`, in the same way. */
    method AddBss(
      s: Sections, id: nat, owner: nat, tracked: seq<Segment>, ghost hist: seq<Snap>, ghost parts: seq<Part>)
      returns (r: LoadResult<seq<Segment>>, ghost hist': seq<Snap>, ghost parts': seq<Part>)
      requires mgr.Valid() && Loadable(s) && id in mgr.spaces && |parts| < 3
      requires InProgress(tracked, hist, parts, id, owner)
      modifies mgr`spaces, mgr.vm`lvl, mgr.vm.pmm, mgr.vm.pmm.bitmap
      ensures mgr.Valid() && mgr.vm.pmm.total == old(mgr.vm.pmm.total)
      ensures r.Failed? ==> parts' == parts
      ensures r.Failed? ==> Undone(hist[0].w, hist[0].f, mgr.View(), mgr.vm.pmm.Free(), id, PagesOf(parts))
      ensures r.Loaded? ==> InProgress(r.value, hist', parts', id, owner) && hist'[0] == hist[0] && id in mgr.spaces
      ensures r.Loaded? && s.bssSize == 0 ==> parts' == parts
      ensures r.Loaded? && s.bssSize > 0 ==>
        && |parts'| == |parts| + 1 && parts'[..|parts|] == parts
        && AsPlanned(parts'[|parts|]) == Planned(BssBase(s), AlignUp(s.bssSize), DATA_FLAGS, [])
    {
      hide WellFormed, UserReach, P.FreeSet, A.Registered, Placed, Contains, DataKept, SameRoots, Settled, Chain;
      hide Undone, AllContain, AlignUp, BssBase;
      LayoutMeaning(s);
      hist', parts' := hist, parts;
      if s.bssSize == 0 {
        return Loaded(tracked), hist', parts';
      }
      A.RegisteredRoots(mgr.spaces, mgr.vm.lvl, mgr.vm.active, mgr.nextId);
      var bss := MapZeroedSegment(id, owner, BssBase(s), AlignUp(s.bssSize), DATA_FLAGS);
      if bss.Failed? {
        Rollback(id, owner, tracked, hist, parts);
        return Failed(bss.error), hist', parts';
      }
      hist', parts' := Track(tracked, hist, parts, id, owner, Part(bss.value.value, DATA_FLAGS, []));
      return Loaded(tracked + [bss.value.value]), hist', parts';
    }

    /** `do_load`: either nothing remains but page-table frames, or the space maps
        the planned segments with their contents. */
    method DoLoad(s: Sections, id: nat, owner: nat)
      returns (r: LoadResult<LoadedExecutable>, ghost parts: seq<Part>, ghost hist: seq<Snap>)
      requires mgr.Valid() && Loadable(s)
      modifies mgr`spaces, mgr.vm`lvl, mgr.vm.pmm, mgr.vm.pmm.bitmap
      ensures mgr.Valid() && mgr.vm.pmm.total == old(mgr.vm.pmm.total)
      ensures r.Failed? ==> var w, f, pages := old(mgr.View()), old(mgr.vm.pmm.Free()), PagesOf(parts);
        Undone(w, f, mgr.View(), mgr.vm.pmm.Free(), id, pages) && pages <= 2 * U32
      ensures r.Loaded? || parts != [] ==> id in old(mgr.spaces) && old(mgr.spaces)[id].owner == owner
      ensures r.Loaded? ==> var m, root := mgr.vm.pmm.ram, A.RootOf(old(mgr.spaces)[id]);
        && Seen(m, root, r.value.textBase, AlignUp(|s.text|), s.text, false)
        && Seen(m, root, r.value.dataBase, AlignUp(|s.data|), s.data, true)
        && Seen(m, root, r.value.bssBase, AlignUp(s.bssSize), [], true)
        && r.value.textBase == 0x40_0000 && r.value.entryPoint == 0x40_0000 + s.entryOffset
      ensures r.Loaded? ==> id in old(mgr.spaces) && Follows(parts, Plan(s)) && AllContain(mgr.vm.pmm.ram, parts)
      ensures r.Loaded? ==>
        LoadedAs(Snap(old(mgr.View()), old(mgr.vm.pmm.Free())), Snap(mgr.View(), mgr.vm.pmm.Free()), id, parts)
      ensures r.Loaded? ==> r.value == LoadedExecutable(TextBase() + s.entryOffset, TextBase(), DataBase(s), BssBase(s))
      ensures r.Loaded? ==> Chain(hist, parts, id, owner, mgr.vm.pmm.total)
      ensures r.Loaded? ==> hist[0] == Snap(old(mgr.View()), old(mgr.vm.pmm.Free()))
      ensures r.Loaded? ==> hist[|parts|] == Snap(mgr.View(), mgr.vm.pmm.Free())
    {
      hide WellFormed, UserReach, P.FreeSet, A.Registered, Placed, Contains, DataKept, SameRoots, Settled, Chain;
      hide Undone, LoadedAs, AllContain, Plan, AlignUp, DataBase, BssBase, Follows, Seen, V.Housed;
      LayoutMeaning(s);
      ghost var start := Snap(mgr.View(), mgr.vm.pmm.Free());
      hist := [start];
      parts := [];
      NoChain(hist, id, owner, mgr.vm.pmm.total, mgr.vm.pmm.ram);
      if SaturatingAdd(BssBase(s), AlignUp(s.bssSize)) > A.USER_CANONICAL_MAX {
        NothingSettled(hist[0].w, hist[0].f, id);
        return Failed(NonCanonicalLayout), parts, hist;
      }
      A.RegisteredRoots(mgr.spaces, mgr.vm.lvl, mgr.vm.active, mgr.nextId);
      var text := MapSegment(id, owner, TextBase(), s.text, TEXT_FLAGS);
      if text.Failed? {
        UndoneSettled(hist[0].w, hist[0].f, mgr.View(), mgr.vm.pmm.Free(), id, 0);
        return Failed(text.error), parts, hist;
      }
      hist, parts := Track([], hist, parts, id, owner, Part(text.value.value, TEXT_FLAGS, s.text));
      ChainRoots(hist, parts, id, owner, mgr.vm.pmm.total);
      var data, bss;
      data, hist, parts := AddData(s, id, owner, [text.value.value], hist, parts);
      if data.Failed? {
        return Failed(data.error), parts, hist;
      }
      bss, hist, parts := AddBss(s, id, owner, data.value, hist, parts);
      if bss.Failed? {
        return Failed(bss.error), parts, hist;
      }
      FollowsPlan(s, parts);
      ChainLoads(hist, parts, id, owner, mgr.vm.pmm.total);
      ProgramSeen(start, Snap(mgr.View(), mgr.vm.pmm.Free()), hist, parts, id, owner, mgr.vm.pmm.total, s);
      return Loaded(LoadedExecutable(TextBase() + s.entryOffset, TextBase(), DataBase(s), BssBase(s))), parts, hist;
    }

    /** `load_into_address_space`: a rejected image changes nothing. */
    method LoadIntoAddressSpace(image: seq<Byte>, id: nat, owner: nat)
      returns (r: LoadResult<LoadedExecutable>, ghost parts: seq<Part>, ghost hist: seq<Snap>)
      requires mgr.Valid()
      modifies mgr`spaces, mgr.vm`lvl, mgr.vm.pmm, mgr.vm.pmm.bitmap
      ensures mgr.Valid() && mgr.vm.pmm.total == old(mgr.vm.pmm.total)
      ensures ParseImage(image).Err? ==> r == Failed(Parse(ParseImage(image).error))
      ensures r.Failed? ==> var w, f, pages := old(mgr.View()), old(mgr.vm.pmm.Free()), PagesOf(parts);
        Undone(w, f, mgr.View(), mgr.vm.pmm.Free(), id, pages) && pages <= 2 * U32
      ensures r.Loaded? || parts != [] ==> id in old(mgr.spaces) && old(mgr.spaces)[id].owner == owner
      ensures r.Loaded? ==> ParseImage(image).Ok? && id in old(mgr.spaces)
      ensures r.Loaded? ==> Follows(parts, Plan(ParseImage(image).value)) && AllContain(mgr.vm.pmm.ram, parts)
      ensures r.Loaded? ==> var m, root, s := mgr.vm.pmm.ram, A.RootOf(old(mgr.spaces)[id]), ParseImage(image).value;
        && Seen(m, root, r.value.textBase, AlignUp(|s.text|), s.text, false)
        && Seen(m, root, r.value.dataBase, AlignUp(|s.data|), s.data, true)
        && Seen(m, root, r.value.bssBase, AlignUp(s.bssSize), [], true)
      ensures r.Loaded? ==> var s := ParseImage(image).value;
        r.value == LoadedExecutable(TextBase() + s.entryOffset, TextBase(), DataBase(s), BssBase(s))
      ensures r.Loaded? ==>
        LoadedAs(Snap(old(mgr.View()), old(mgr.vm.pmm.Free())), Snap(mgr.View(), mgr.vm.pmm.Free()), id, parts)
      ensures r.Loaded? ==> Chain(hist, parts, id, owner, mgr.vm.pmm.total)
      ensures r.Loaded? ==> hist[0] == Snap(old(mgr.View()), old(mgr.vm.pmm.Free()))
      ensures r.Loaded? ==> hist[|parts|] == Snap(mgr.View(), mgr.vm.pmm.Free())
    {
      hide WellFormed, UserReach, P.FreeSet, A.Registered, Settled, LoadedAs, AllContain, Plan, ParseImage, Follows;
      hide Undone, Chain, DataBase, BssBase, Seen, AlignUp;
      var s := ParseImage(image);
      if s.Err? {
        NothingSettled(mgr.View(), mgr.vm.pmm.Free(), id);
        return Failed(Parse(s.error)), [], [];
      }
      ParsedSizes(image);
      r, parts, hist := DoLoad(s.value, id, owner);
    }
  }

  ghost predicate SameRoots(lvl: Levels, lvl': Levels) {
    forall s :: Root(lvl, s) <==> Root(lvl', s)
  }

  lemma DataKeptRefl(m: Ram, lvl: Levels, f: set<nat>)
    ensures DataKept(m, lvl, f, m)
  {
  }

  /** Nothing is left of what happened but new tables: the translations, the
      spaces with their counts, the free frames but those, and the contents of every frame
      in use that is no table are as before. */
  ghost predicate Settled(w: A.World, f: set<nat>, w': A.World, f': set<nat>) {
    && SameLookups(w.ram, w'.ram, w.lvl) && w'.spaces == w.spaces && w'.kernel == w.kernel
    && Spent(w.lvl, f, w'.lvl, f', {}) && SameRoots(w.lvl, w'.lvl) && DataKept(w.ram, w.lvl, f, w'.ram)
  }

  /** The same once `pages` pages were counted for a space and uncounted again. */
  ghost predicate Undone(w: A.World, f: set<nat>, w': A.World, f': set<nat>, id: nat, pages: nat) {
    Settled(w, f, w'.(spaces := w.spaces), f') && w'.spaces == A.Capped(w.spaces, id, pages)
  }

  lemma UndoneIs(w: A.World, f: set<nat>, w': A.World, f': set<nat>, id: nat, pages: nat)
    ensures Undone(w, f, w', f', id, pages) <==>
      && SameLookups(w.ram, w'.ram, w.lvl) && w'.spaces == A.Capped(w.spaces, id, pages) && w'.kernel == w.kernel
      && Spent(w.lvl, f, w'.lvl, f', {}) && SameRoots(w.lvl, w'.lvl) && DataKept(w.ram, w.lvl, f, w'.ram)
  {
  }

  /** Counts that do not saturate come back. */
  lemma UndoneSettled(w: A.World, f: set<nat>, w': A.World, f': set<nat>, id: nat, pages: nat)
    requires id in w.spaces ==> w.spaces[id].count + pages < USIZE
    ensures Undone(w, f, w', f', id, pages) <==> Settled(w, f, w', f')
  {
    assert w'.spaces == w.spaces ==> w'.(spaces := w.spaces) == w';
  }

  /** Contents kept by two steps in a row are kept. */
  lemma DataChain(m: Ram, l: Levels, f: set<nat>, m1: Ram, l1: Levels, f1: set<nat>, m2: Ram, t: set<nat>)
    requires Spent(l, f, l1, f1, t) && DataKept(m, l, f, m1) && DataKept(m1, l1, f1, m2)
    ensures DataKept(m, l, f, m2)
  {
    forall g: nat | g < |m| && g !in f && g !in l ensures m2[g] == m[g] {
      assert g !in l1.Keys;
    }
  }

  lemma UndisturbedKept(m: Ram, l: Levels, f: set<nat>, m': Ram, l': Levels, f': set<nat>)
    requires Undisturbed(m, l, m', l') && Spent(l, f, l', f', {})
    ensures DataKept(m, l, f, m')
  {
    forall g: nat | g < |m| && g !in f && g !in l ensures m'[g] == m[g] {
      assert g !in l'.Keys;
    }
  }

  lemma SettledSpent(w: A.World, f: set<nat>, w1: A.World, f1: set<nat>, w2: A.World, f2: set<nat>, t: set<nat>)
    requires Spent(w.lvl, f, w1.lvl, f1, t) && Spent(w1.lvl, f1, w2.lvl, f2, {})
    requires SameRoots(w.lvl, w1.lvl) && SameRoots(w1.lvl, w2.lvl)
    ensures Spent(w.lvl, f, w2.lvl, f2, t) && SameRoots(w.lvl, w2.lvl)
  {
    SpentTransitive(w.lvl, f, w1.lvl, f1, t, w2.lvl, f2, {});
    assert t + {} == t;
  }

  lemma CountBack(spaces: A.Spaces, id: nat, n: nat, pages: nat)
    requires id in spaces && pages + n < USIZE
    ensures var up := A.Capped(A.Counted(spaces, id, SaturatingAdd(spaces[id].count, n)), id, pages);
      && id in up && A.Counted(up, id, A.Lowered(up[id].count, n)) == A.Capped(spaces, id, pages + n)
      && up[id].pml4 == spaces[id].pml4 && up[id].owner == spaces[id].owner
  {
  }

  /** Whatever was undone since, the segment can be unmapped. */
  lemma UndoReady(
    w: A.World, f: set<nat>, w1: A.World, f1: set<nat>, w2: A.World, f2: set<nat>, id: nat, owner: nat, seg: Segment,
    flags: Word, pages: nat)
    requires id in w.spaces && Placed(w, f, w1, f1, id, owner, seg, flags)
    requires Undone(w1, f1, w2, f2, id, pages) && pages + seg.size / PAGE_SIZE < USIZE
    ensures A.UnmapRefusal(w2.spaces, id, owner, seg.virt, seg.size).None? && Aligned(seg.phys) && seg.size > 0
    ensures id in w2.spaces && w2.spaces[id].pml4 == w.spaces[id].pml4 && w2.spaces[id].pml4 != 0
    ensures A.PageCount(seg.size) == seg.size / PAGE_SIZE
  {
    hide Lookup, SameLookups, Spent, Patched, AllEmpty, P.Range, MapWords, DataKept, SameRoots;
    UndoneIs(w1, f1, w2, f2, id, pages);
    CountBack(w.spaces, id, seg.size / PAGE_SIZE, pages);
    SizeInPages(seg.size / PAGE_SIZE);
  }

  /** Unmapping it restores translations, contents and the count; its frames are still taken. */
  lemma UndoStep(
    w: A.World, f: set<nat>, w1: A.World, f1: set<nat>, w2: A.World, f2: set<nat>, w3: A.World, id: nat, owner: nat,
    seg: Segment, flags: Word, pages: nat)
    requires id in w.spaces && Placed(w, f, w1, f1, id, owner, seg, flags)
    requires Undone(w1, f1, w2, f2, id, pages) && pages + seg.size / PAGE_SIZE < USIZE
    requires SameRoots(w.lvl, w1.lvl) && DataKept(w.ram, w.lvl, f, w1.ram)
    requires w3.lvl == w2.lvl && w3.kernel == w2.kernel && Undisturbed(w2.ram, w2.lvl, w3.ram, w3.lvl)
    requires var n := seg.size / PAGE_SIZE;
      && Patched(w2.ram, w3.ram, w2.lvl, A.RootOf(w.spaces[id]), seg.virt / PAGE_SIZE, Nones(n))
      && id in w2.spaces && w3.spaces == A.Counted(w2.spaces, id, A.Lowered(w2.spaces[id].count, n))
    ensures var n := seg.size / PAGE_SIZE;
      && Spent(w.lvl, f, w3.lvl, f2, P.Range(seg.phys / PAGE_SIZE, n)) && SameRoots(w.lvl, w3.lvl)
      && DataKept(w.ram, w.lvl, f, w3.ram) && SameLookups(w.ram, w3.ram, w.lvl) && w3.kernel == w.kernel && n > 0
      && w3.spaces == A.Capped(w.spaces, id, pages + n)
  {
    hide Lookup, SameLookups, Spent, Patched, AllEmpty, P.Range, MapWords, Nones, DataKept, SameRoots, Undisturbed;
    hide A.Capped, A.Lowered;
    var n := seg.size / PAGE_SIZE;
    var root, base, t := A.RootOf(w.spaces[id]), seg.virt / PAGE_SIZE, P.Range(seg.phys / PAGE_SIZE, n);
    UndoneIs(w1, f1, w2, f2, id, pages);
    CountBack(w.spaces, id, n, pages);
    SettledSpent(w, f, w1, f1, w2, f2, t);
    DataChain(w.ram, w.lvl, f, w1.ram, w1.lvl, f1, w2.ram, t);
    NothingSpent(w2.lvl, f2);
    UndisturbedKept(w2.ram, w2.lvl, f2, w3.ram, w3.lvl, f2);
    DataChain(w.ram, w.lvl, f, w2.ram, w2.lvl, f2, w3.ram, t);
    UndoneLookups(w, w1, w2, w3.ram, root, base, MapWords(seg.phys, n, flags));
  }

  lemma TakenInside(lvl: Levels, f: set<nat>, lvl': Levels, f': set<nat>, s: nat, n: nat, total: nat)
    requires Spent(lvl, f, lvl', f', P.Range(s, n)) && n > 0 && forall p :: p in f ==> p < total
    ensures s + n <= total
  {
    assert s + n - 1 in P.Range(s, n);
  }

  /** Emptying a run that was filled when empty restores every translation. */
  lemma UndoneLookups(w: A.World, w1: A.World, w2: A.World, m': Ram, r: nat, base: nat, ws: seq<Option<Word>>)
    requires Patched(w.ram, w1.ram, w.lvl, r, base, ws) && AllEmpty(w.ram, r, base, |ws|)
    requires SameLookups(w1.ram, w2.ram, w1.lvl) && Patched(w2.ram, m', w2.lvl, r, base, Nones(|ws|))
    requires SameRoots(w.lvl, w1.lvl) && SameRoots(w.lvl, w2.lvl)
    ensures SameLookups(w.ram, m', w.lvl)
  {
    PatchThenSame(w.ram, w1.ram, w2.ram, w.lvl, w1.lvl, r, base, ws);
    PatchOver(w.ram, w2.ram, m', w.lvl, w2.lvl, r, base, ws, Nones(|ws|));
    EmptiedSame(w.ram, m', w.lvl, r, base, |ws|);
  }

  lemma NothingSpent(lvl: Levels, f: set<nat>)
    ensures Spent(lvl, f, lvl, f, {}) && SameRoots(lvl, lvl)
  {
  }

  lemma SizeInPages(pages: nat)
    requires pages * PAGE_SIZE < USIZE
    ensures A.PageCount(pages * PAGE_SIZE) == pages
  {
  }

  /** A mapped segment: its frames, free before, are taken; its pages, empty
      before, translate to them; the count grew by as many. */
  ghost predicate Placed(
    w: A.World, f: set<nat>, w': A.World, f': set<nat>, id: nat, owner: nat, seg: Segment, flags: Word)
    requires id in w.spaces
  {
    var root, base, n := A.RootOf(w.spaces[id]), seg.virt / PAGE_SIZE, seg.size / PAGE_SIZE;
    && w'.kernel == w.kernel && Aligned(seg.phys) && seg.size == n * PAGE_SIZE && n > 0
    && A.UnmapRefusal(w.spaces, id, owner, seg.virt, seg.size).None? && w.spaces[id].pml4 != 0
    && Spent(w.lvl, f, w'.lvl, f', P.Range(seg.phys / PAGE_SIZE, n))
    && AllEmpty(w.ram, root, base, n) && Patched(w.ram, w'.ram, w.lvl, root, base, MapWords(seg.phys, n, flags))
    && w'.spaces == A.Counted(w.spaces, id, SaturatingAdd(w.spaces[id].count, n))
  }

  lemma PlacedIntro(
    w: A.World, f: set<nat>, m1: Ram, w': A.World, f': set<nat>, id: nat, owner: nat, virt: Usize, phys: Usize,
    n: nat, flags: Word)
    requires n > 0 && n * PAGE_SIZE < USIZE && A.MapRefusal(w.spaces, id, owner, virt, phys, n * PAGE_SIZE).None?
    requires id in w.spaces
    requires w.spaces[id].pml4 != 0 && Root(w.lvl, A.RootOf(w.spaces[id])) && w'.kernel == w.kernel
    requires Spent(w.lvl, f, w'.lvl, f', P.Range(phys / PAGE_SIZE, n)) && SameLookups(w.ram, m1, w.lvl)
    requires AllEmpty(m1, A.RootOf(w.spaces[id]), virt / PAGE_SIZE, n)
    requires Patched(m1, w'.ram, w.lvl, A.RootOf(w.spaces[id]), virt / PAGE_SIZE, MapWords(phys, n, flags))
    requires w'.spaces == A.Counted(w.spaces, id, SaturatingAdd(w.spaces[id].count, n))
    ensures Placed(w, f, w', f', id, owner, Segment(virt, phys, n * PAGE_SIZE), flags)
  {
    hide Lookup, SameLookups, Spent, AllEmpty, Patched, MapWords;
    SizeInPages(n);
    assert n * PAGE_SIZE / PAGE_SIZE == n;
    A.RegionInUserHalf(virt, n * PAGE_SIZE);
    PatchFirst(w.ram, m1, w'.ram, w.lvl, A.RootOf(w.spaces[id]), virt / PAGE_SIZE, MapWords(phys, n, flags));
  }

  /** Frames taken and filled survive the mapping that follows. */
  lemma Placing(
    m: Ram, lvl: Levels, f: set<nat>, m1: Ram, f1: set<nat>, m2: Ram, l2: Levels, f2: set<nat>, s: nat, n: nat,
    data: seq<Byte>)
    requires (forall t :: t in lvl ==> t !in f) && P.RunFree(f, s, n) && f1 == f - P.Range(s, n)
    requires Paid(lvl, f1, l2, f2)
    requires DataKept(m, lvl, f, m1) && Contains(m1, s, n, data)
    requires Undisturbed(m1, lvl, m2, l2)
    ensures Spent(lvl, f, l2, f2, P.Range(s, n)) && SameRoots(lvl, l2)
    ensures DataKept(m, lvl, f, m2) && Contains(m2, s, n, data)
  {
    assert f - f2 - P.Range(s, n) == f1 - f2;
    forall g: nat | g < |m| && g !in f && g !in lvl ensures g !in l2.Keys {
    }
    forall g: nat | s <= g < s + n ensures g !in l2.Keys {
      assert g in P.Range(s, n);
    }
  }

  lemma PatchFirst(m: Ram, m1: Ram, m2: Ram, lvl: Levels, r: nat, base: nat, ws: seq<Option<Word>>)
    requires SameLookups(m, m1, lvl) && Patched(m1, m2, lvl, r, base, ws) && AllEmpty(m1, r, base, |ws|)
    requires Root(lvl, r) && base + |ws| <= PAGES
    ensures Patched(m, m2, lvl, r, base, ws) && AllEmpty(m, r, base, |ws|)
  {
  }

  /** Frames given back were taken from the free set, so no table sits in them. */
  lemma HousedBack(l2: Levels, f2: set<nat>, total: nat, lvl: Levels, f: set<nat>, rest: set<nat>, t: set<nat>)
    requires V.Housed(l2, total, f2) && V.Housed(lvl, total, f) && Spent(lvl, f, l2, f2 + t, rest) && t <= f
    ensures V.Housed(l2, total, f2 + t)
  {
    forall x | x in l2 ensures x !in t {
      assert x in l2.Keys;
    }
  }

  // ----- a load in progress -----

  /** The state before or after a segment. */
  datatype Snap = Snap(w: A.World, f: set<nat>)

  /** A segment with what it was mapped as and what was copied into it. */
  datatype Part = Part(seg: Segment, flags: Word, data: seq<Byte>)

  ghost predicate SnapOk(p: Snap, id: nat, total: nat) {
    && id in p.w.spaces && Root(p.w.lvl, A.RootOf(p.w.spaces[id]))
    && V.Housed(p.w.lvl, total, p.f) && (forall x :: x in p.f ==> x < total)
  }

  /** The segments were placed one after the other. */
  ghost predicate Chain(hist: seq<Snap>, parts: seq<Part>, id: nat, owner: nat, total: nat) {
    && |hist| == |parts| + 1
    && (forall i :: 0 <= i < |parts| ==> SnapOk(hist[i], id, total))
    && (forall i :: 0 <= i < |parts| ==>
          && Placed(hist[i].w, hist[i].f, hist[i + 1].w, hist[i + 1].f, id, owner, parts[i].seg, parts[i].flags)
          && SameRoots(hist[i].w.lvl, hist[i + 1].w.lvl)
          && DataKept(hist[i].w.ram, hist[i].w.lvl, hist[i].f, hist[i + 1].w.ram))
  }

  ghost predicate Tracks(tracked: seq<Segment>, parts: seq<Part>) {
    |tracked| == |parts| && forall i :: 0 <= i < |parts| ==> tracked[i] == parts[i].seg
  }

  lemma ChainAt(hist: seq<Snap>, parts: seq<Part>, id: nat, owner: nat, total: nat, i: nat)
    requires Chain(hist, parts, id, owner, total) && i < |parts|
    ensures SnapOk(hist[i], id, total) && id in hist[i].w.spaces && Root(hist[i].w.lvl, A.RootOf(hist[i].w.spaces[id]))
    ensures V.Housed(hist[i].w.lvl, total, hist[i].f) && forall x :: x in hist[i].f ==> x < total
    ensures Placed(hist[i].w, hist[i].f, hist[i + 1].w, hist[i + 1].f, id, owner, parts[i].seg, parts[i].flags)
    ensures SameRoots(hist[i].w.lvl, hist[i + 1].w.lvl)
    ensures DataKept(hist[i].w.ram, hist[i].w.lvl, hist[i].f, hist[i + 1].w.ram)
  {
  }

  /** What page `q` translates to once `part` is mapped over `o`. */
  function After(o: Option<Word>, part: Part, q: nat): Option<Word> {
    var base := part.seg.virt / PAGE_SIZE;
    if base <= q < base + part.seg.size / PAGE_SIZE
    then Leaf(SetWord((part.seg.phys + (q - base) * PAGE_SIZE) % USIZE, part.flags)) else o
  }

  function AfterAll(o: Option<Word>, parts: seq<Part>, q: nat): Option<Word> {
    if parts == [] then o else After(AfterAll(o, parts[..|parts| - 1], q), parts[|parts| - 1], q)
  }

  function PagesOf(parts: seq<Part>): nat {
    if parts == [] then 0 else PagesOf(parts[..|parts| - 1]) + parts[|parts| - 1].seg.size / PAGE_SIZE
  }

  lemma PagesNext(parts: seq<Part>, i: nat)
    requires i < |parts|
    ensures PagesOf(parts[..i + 1]) == PagesOf(parts[..i]) + parts[i].seg.size / PAGE_SIZE
  {
    assert parts[..i + 1][..i] == parts[..i];
  }

  function FramesOf(parts: seq<Part>): set<nat> {
    if parts == [] then {}
    else FramesOf(parts[..|parts| - 1]) + PartFrames(parts[|parts| - 1])
  }

  function PartFrames(part: Part): set<nat> {
    set p: nat | InPart(part, p) && p < part.seg.phys / PAGE_SIZE + part.seg.size / PAGE_SIZE
  }

  predicate InPart(part: Part, p: nat) {
    part.seg.phys / PAGE_SIZE <= p < part.seg.phys / PAGE_SIZE + part.seg.size / PAGE_SIZE
  }

  /** The space maps the parts, and what it mapped before where they do not reach;
      no other root changed; the count rose by the pages of the parts; all frames gone from
      the free set are the parts' or tables; and frames in use keep their contents. */
  ghost predicate LoadedAs(p: Snap, p': Snap, id: nat, parts: seq<Part>)
    requires id in p.w.spaces
  {
    && Spent(p.w.lvl, p.f, p'.w.lvl, p'.f, FramesOf(parts)) && DataKept(p.w.ram, p.w.lvl, p.f, p'.w.ram)
    && p'.w.spaces == A.Counted(p.w.spaces, id, SaturatingAdd(p.w.spaces[id].count, PagesOf(parts)))
    && forall s: nat, q: nat :: Root(p.w.lvl, s) && q < PAGES ==>
         Lookup(p'.w.ram, s, q) ==
           if s == A.RootOf(p.w.spaces[id]) then AfterAll(Lookup(p.w.ram, s, q), parts, q) else Lookup(p.w.ram, s, q)
  }

  lemma {:induction false} ChainLoads(hist: seq<Snap>, parts: seq<Part>, id: nat, owner: nat, total: nat)
    requires Chain(hist, parts, id, owner, total) && id in hist[0].w.spaces
    ensures LoadedAs(hist[0], hist[|parts|], id, parts)
    ensures SameRoots(hist[0].w.lvl, hist[|parts|].w.lvl)
    ensures id in hist[|parts|].w.spaces && hist[|parts|].w.spaces[id].pml4 == hist[0].w.spaces[id].pml4
    decreases |parts|
  {
    if |parts| == 0 {
      NothingSpent(hist[0].w.lvl, hist[0].f);
      DataKeptRefl(hist[0].w.ram, hist[0].w.lvl, hist[0].f);
    } else {
      var k := |parts| - 1;
      assert Chain(hist[..k + 1], parts[..k], id, owner, total);
      ChainLoads(hist[..k + 1], parts[..k], id, owner, total);
      ChainAt(hist, parts, id, owner, total, k);
      LoadStep(hist[0], hist[k], hist[k + 1], id, owner, parts[..k], parts[k]);
      assert parts[..k] + [parts[k]] == parts;
    }
  }

  lemma LoadStep(p: Snap, p1: Snap, p2: Snap, id: nat, owner: nat, parts: seq<Part>, part: Part)
    requires id in p.w.spaces && LoadedAs(p, p1, id, parts) && SameRoots(p.w.lvl, p1.w.lvl)
    requires id in p1.w.spaces && p1.w.spaces[id].pml4 == p.w.spaces[id].pml4
    requires Placed(p1.w, p1.f, p2.w, p2.f, id, owner, part.seg, part.flags)
    requires DataKept(p1.w.ram, p1.w.lvl, p1.f, p2.w.ram)
    ensures LoadedAs(p, p2, id, parts + [part])
  {
    hide Lookup, DataKept;
    DataChain(p.w.ram, p.w.lvl, p.f, p1.w.ram, p1.w.lvl, p1.f, p2.w.ram, FramesOf(parts));
    var all := parts + [part];
    assert all[..|all| - 1] == parts;
    var n, base := part.seg.size / PAGE_SIZE, part.seg.virt / PAGE_SIZE;
    assert PartFrames(part) == P.Range(part.seg.phys / PAGE_SIZE, n);
    SpentTransitive(p.w.lvl, p.f, p1.w.lvl, p1.f, FramesOf(parts), p2.w.lvl, p2.f, PartFrames(part));
    forall s: nat, q: nat | Root(p.w.lvl, s) && q < PAGES
      ensures Lookup(p2.w.ram, s, q) ==
        if s == A.RootOf(p.w.spaces[id]) then AfterAll(Lookup(p.w.ram, s, q), all, q) else Lookup(p.w.ram, s, q)
    {
      assert Root(p1.w.lvl, s);
    }
  }

  ghost predicate AllContain(m: Ram, parts: seq<Part>) {
    forall i :: 0 <= i < |parts| ==>
      Contains(m, parts[i].seg.phys / PAGE_SIZE, parts[i].seg.size / PAGE_SIZE, parts[i].data)
  }

  lemma ExtendChain(hist: seq<Snap>, parts: seq<Part>, id: nat, owner: nat, total: nat, p: Snap, part: Part)
    requires Chain(hist, parts, id, owner, total) && SnapOk(hist[|parts|], id, total)
    requires var l := hist[|parts|];
      Placed(l.w, l.f, p.w, p.f, id, owner, part.seg, part.flags) && SameRoots(l.w.lvl, p.w.lvl)
      && DataKept(l.w.ram, l.w.lvl, l.f, p.w.ram)
    ensures Chain(hist + [p], parts + [part], id, owner, total)
  {
    hide Placed, DataKept;
    var h, q := hist + [p], parts + [part];
    forall i | 0 <= i < |q| ensures SnapOk(h[i], id, total)
      && Placed(h[i].w, h[i].f, h[i + 1].w, h[i + 1].f, id, owner, q[i].seg, q[i].flags)
      && SameRoots(h[i].w.lvl, h[i + 1].w.lvl) && DataKept(h[i].w.ram, h[i].w.lvl, h[i].f, h[i + 1].w.ram)
    {
      if i < |parts| {
        assert SnapOk(hist[i], id, total);
      }
    }
  }

  lemma PlacedKeeps(p: Snap, p': Snap, id: nat, owner: nat, part: Part)
    requires id in p.w.spaces && Placed(p.w, p.f, p'.w, p'.f, id, owner, part.seg, part.flags)
    ensures id in p'.w.spaces
  {
  }

  lemma {:induction false} InFrames(parts: seq<Part>, i: nat, f: nat)
    requires i < |parts| && InPart(parts[i], f)
    ensures f in FramesOf(parts)
  {
    if i < |parts| - 1 {
      InFrames(parts[..|parts| - 1], i, f);
    }
  }

  /** Frames of placed segments are neither free nor tables, so later segments
      leave their contents alone. */
  lemma PartsKept(hist: seq<Snap>, parts: seq<Part>, id: nat, owner: nat, total: nat, m: Ram)
    requires Chain(hist, parts, id, owner, total) && id in hist[0].w.spaces && V.Housed(hist[0].w.lvl, total, hist[0].f)
    requires var p := hist[|parts|]; AllContain(p.w.ram, parts) && DataKept(p.w.ram, p.w.lvl, p.f, m)
    ensures AllContain(m, parts)
  {
    hide Lookup, Contains, Placed;
    var p := hist[|parts|];
    ChainLoads(hist, parts, id, owner, total);
    forall i | 0 <= i < |parts|
      ensures Contains(m, parts[i].seg.phys / PAGE_SIZE, parts[i].seg.size / PAGE_SIZE, parts[i].data)
    {
      var s, n := parts[i].seg.phys / PAGE_SIZE, parts[i].seg.size / PAGE_SIZE;
      forall f: nat | s <= f < s + n ensures f < |m| && m[f] == p.w.ram[f] {
        InFrames(parts, i, f);
        assert f !in p.f && f !in p.w.lvl.Keys;
        ContainsFits(p.w.ram, s, n, parts[i].data);
      }
      ContainsKept(p.w.ram, m, s, n, parts[i].data);
    }
  }

  // ----- the layout of a load -----

  datatype LoadedExecutable = LoadedExecutable(entryPoint: nat, textBase: nat, dataBase: nat, bssBase: nat)

  const TEXT_FLAGS: Word := Flags(false, true, false)
  const DATA_FLAGS: Word := Flags(true, true, false)

  /** What `parse_image` hands over: `u32` sizes and an entry inside the text. */
  predicate Loadable(s: Sections) {
    |s.text| < U32 && |s.data| < U32 && s.bssSize < U32 && s.entryOffset < |s.text|
  }

  function TextBase(): Usize { USER_EXEC_LOAD_BASE }

  function DataBase(s: Sections): Usize { AlignUp(TextBase() + AlignUp(|s.text|)) }

  function BssBase(s: Sections): Usize { AlignUp(DataBase(s) + AlignUp(|s.data|)) }

  /** Where a segment goes, how large it is, how it is mapped and what it holds. */
  datatype Planned = Planned(virt: nat, size: nat, flags: Word, data: seq<Byte>)

  function Plan(s: Sections): seq<Planned> {
    [Planned(TextBase(), AlignUp(|s.text|), TEXT_FLAGS, s.text)]
    + (if s.data == [] then [] else [Planned(DataBase(s), AlignUp(|s.data|), DATA_FLAGS, s.data)])
    + (if s.bssSize == 0 then [] else [Planned(BssBase(s), AlignUp(s.bssSize), DATA_FLAGS, [])])
  }

  function AsPlanned(part: Part): Planned {
    Planned(part.seg.virt, part.seg.size, part.flags, part.data)
  }

  ghost predicate Follows(parts: seq<Part>, plan: seq<Planned>) {
    |parts| == |plan| && forall i :: 0 <= i < |parts| ==> AsPlanned(parts[i]) == plan[i]
  }

  lemma LayoutMeaning(s: Sections)
    requires Loadable(s)
    ensures DataBase(s) == TextBase() + AlignUp(|s.text|) && BssBase(s) == DataBase(s) + AlignUp(|s.data|)
    ensures BssBase(s) + AlignUp(s.bssSize) < A.USER_CANONICAL_MAX
    ensures AlignUp(|s.text|) <= U32 && AlignUp(|s.data|) <= U32 && AlignUp(s.bssSize) <= U32
    ensures AlignUp(AlignUp(s.bssSize)) == AlignUp(s.bssSize)
    ensures |s.text| <= AlignUp(|s.text|) && |s.data| <= AlignUp(|s.data|) && s.bssSize <= AlignUp(s.bssSize)
    ensures Aligned(DataBase(s)) && Aligned(BssBase(s)) && Aligned(AlignUp(|s.text|)) && Aligned(AlignUp(|s.data|))
    ensures Aligned(AlignUp(s.bssSize))
  {
    hide AlignUp;
    AlignUpMeaning(|s.text|);
    AlignUpMeaning(|s.data|);
    AlignUpMeaning(s.bssSize);
    AlignUpMeaning(TextBase() + AlignUp(|s.text|));
    AlignUpMeaning(DataBase(s) + AlignUp(|s.data|));
    AlignUpMeaning(AlignUp(s.bssSize));
  }

  /** Planned segments are page-aligned, large enough, pairwise disjoint and inside
      the user range, and the entry point lies in the text. */
  lemma PlanIsSane(s: Sections)
    requires Loadable(s)
    ensures forall i :: 0 <= i < |Plan(s)| ==>
      && Aligned(Plan(s)[i].virt) && Aligned(Plan(s)[i].size)
      && 0 < Plan(s)[i].size && |Plan(s)[i].data| <= Plan(s)[i].size
      && Plan(s)[i].virt + Plan(s)[i].size <= A.USER_CANONICAL_MAX
    ensures forall i, j :: 0 <= i < j < |Plan(s)| ==> Plan(s)[i].virt + Plan(s)[i].size <= Plan(s)[j].virt
    ensures Plan(s)[0].virt <= TextBase() + s.entryOffset < Plan(s)[0].virt + Plan(s)[0].size
  {
    LayoutMeaning(s);
  }

  lemma FollowsPlan(s: Sections, parts: seq<Part>)
    requires |parts| == 1 + (if s.data == [] then 0 else 1) + (if s.bssSize == 0 then 0 else 1)
    requires AsPlanned(parts[0]) == Planned(TextBase(), AlignUp(|s.text|), TEXT_FLAGS, s.text)
    requires s.data != [] ==> AsPlanned(parts[1]) == Planned(DataBase(s), AlignUp(|s.data|), DATA_FLAGS, s.data)
    requires s.bssSize > 0 ==>
      AsPlanned(parts[|parts| - 1]) == Planned(BssBase(s), AlignUp(s.bssSize), DATA_FLAGS, [])
    ensures Follows(parts, Plan(s))
  {
  }

  // ----- what the loaded program sees -----

  /** Under root `r`, user mode reads `data` and then zeros in the `size` bytes from `base`
      on, may execute them, and may write them exactly if `writable`. */
  ghost predicate Seen(m: Ram, r: nat, base: nat, size: nat, data: seq<Byte>, writable: bool) {
    forall v: Usize :: base <= v < base + size ==>
      && VirtByte(m, r, v) == Some(if v - base < |data| then data[v - base] else 0)
      && Admits(m, r, PageOf(v), true, false, true)
      && (Admits(m, r, PageOf(v), true, true, false) <==> writable)
  }

  predicate Covers(part: Part, q: nat) {
    part.seg.virt / PAGE_SIZE <= q < part.seg.virt / PAGE_SIZE + part.seg.size / PAGE_SIZE
  }

  /** The last segment that covers a page decides its translation. */
  lemma {:induction false} AfterAllAt(o: Option<Word>, parts: seq<Part>, i: nat, q: nat)
    requires i < |parts| && Covers(parts[i], q) && forall j :: i < j < |parts| ==> !Covers(parts[j], q)
    ensures var seg := parts[i].seg;
      AfterAll(o, parts, q) ==
        Leaf(SetWord((seg.phys + (q - seg.virt / PAGE_SIZE) * PAGE_SIZE) % USIZE, parts[i].flags))
  {
    hide SetWord;
    if i < |parts| - 1 {
      var rest := parts[..|parts| - 1];
      assert forall j :: i < j < |rest| ==> rest[j] == parts[j];
      AfterAllAt(o, rest, i, q);
      assert !Covers(parts[|parts| - 1], q);
    }
  }

  /** One byte of a segment, seen through the page that maps it. */
  lemma ByteSeen(m: Ram, r: nat, phys: Usize, base: nat, n: nat, data: seq<Byte>, v: Usize, w: Word)
    requires Aligned(phys) && Aligned(base) && base <= v < base + n * PAGE_SIZE && v / PAGE_SIZE < PAGES
    requires |m| <= P.MAX_PAGES && Contains(m, phys / PAGE_SIZE, n, data)
    requires Lookup(m, r, v / PAGE_SIZE) == Some(w)
    requires w.frame == (phys + (v / PAGE_SIZE - base / PAGE_SIZE) * PAGE_SIZE) % USIZE / PAGE_SIZE % FRAMES
    ensures VirtByte(m, r, v) == Some(if v - base < |data| then data[v - base] else 0)
  {
    hide Lookup, MemByte;
    var s, k := phys / PAGE_SIZE, v / PAGE_SIZE - base / PAGE_SIZE;
    assert 0 <= k < n && v - base == k * PAGE_SIZE + v % PAGE_SIZE;
    assert (phys + k * PAGE_SIZE) / PAGE_SIZE == s + k;
    assert w.frame == s + k;
    SameFrame(m, s, v - base);
    assert (v - base) / PAGE_SIZE == k && (v - base) % PAGE_SIZE == v % PAGE_SIZE;
    assert PageOf(v) == v / PAGE_SIZE;
  }

  /** A segment in place is seen with its contents and its permissions. */
  lemma PartSeen(p: Snap, p': Snap, id: nat, parts: seq<Part>, i: nat)
    requires id in p.w.spaces && LoadedAs(p, p', id, parts) && AllContain(p'.w.ram, parts) && i < |parts|
    requires WellFormed(p'.w.ram, p'.w.lvl) && UserReach(p'.w.ram, p'.w.lvl) && |p'.w.ram| <= P.MAX_PAGES
    requires Root(p.w.lvl, A.RootOf(p.w.spaces[id])) && Root(p'.w.lvl, A.RootOf(p.w.spaces[id]))
    requires Sane(parts) && parts[i].flags == Word(true, parts[i].flags.writable, true, 0, 0, 0, false)
    ensures var part := parts[i];
      Seen(p'.w.ram, A.RootOf(p.w.spaces[id]), part.seg.virt, part.seg.size, part.data, part.flags.writable)
  {
    hide Lookup, WellFormed, UserReach, Spent, DataKept, Contains, MemByte, SetWord, VirtByte, Admits;
    var m, root, part := p'.w.ram, A.RootOf(p.w.spaces[id]), parts[i];
    forall v: Usize | part.seg.virt <= v < part.seg.virt + part.seg.size
      ensures VirtByte(m, root, v) == Some(if v - part.seg.virt < |part.data| then part.data[v - part.seg.virt] else 0)
      ensures Admits(m, root, PageOf(v), true, false, true)
      ensures Admits(m, root, PageOf(v), true, true, false) <==> part.flags.writable
    {
      var q := v / PAGE_SIZE;
      SaneAt(parts, i, v);
      AfterAllAt(Lookup(p.w.ram, root, q), parts, i, q);
      var addr := (part.seg.phys + (q - part.seg.virt / PAGE_SIZE) * PAGE_SIZE) % USIZE;
      SetWordMeaning(addr, part.flags);
      assert Lookup(m, root, q) == Some(SetWord(addr, part.flags));
      var word, n := SetWord(addr, part.flags), part.seg.size / PAGE_SIZE;
      ByteSeen(m, root, part.seg.phys, part.seg.virt, n, part.data, v, word);
      AccessIsLeaf(m, p'.w.lvl, root, q, true, false, true);
      AccessIsLeaf(m, p'.w.lvl, root, q, true, true, false);
    }
  }

  /** Page-aligned segments of the user range, one after the other. */
  ghost predicate Sane(parts: seq<Part>) {
    && (forall i :: 0 <= i < |parts| ==>
          var seg := parts[i].seg;
          Aligned(seg.virt) && Aligned(seg.size) && Aligned(seg.phys) && seg.virt + seg.size <= A.USER_CANONICAL_MAX)
    && (forall i, j :: 0 <= i < j < |parts| ==> parts[i].seg.virt + parts[i].seg.size <= parts[j].seg.virt)
  }

  lemma SaneAt(parts: seq<Part>, i: nat, v: Usize)
    requires Sane(parts) && i < |parts| && parts[i].seg.virt <= v < parts[i].seg.virt + parts[i].seg.size
    ensures v / PAGE_SIZE < USER_PAGES && PageOf(v) == v / PAGE_SIZE && Covers(parts[i], v / PAGE_SIZE)
    ensures forall j :: i < j < |parts| ==> !Covers(parts[j], v / PAGE_SIZE)
  {
  }

  /** A loaded program sees its text, its data and its bss. */
  lemma ProgramSeen(p: Snap, p': Snap, hist: seq<Snap>, parts: seq<Part>, id: nat, owner: nat, total: nat, s: Sections)
    requires Chain(hist, parts, id, owner, total) && hist[0] == p && hist[|parts|] == p' && id in p.w.spaces
    requires Loadable(s) && Follows(parts, Plan(s)) && AllContain(p'.w.ram, parts)
    requires WellFormed(p'.w.ram, p'.w.lvl) && UserReach(p'.w.ram, p'.w.lvl) && |p'.w.ram| <= P.MAX_PAGES
    ensures var m, root := p'.w.ram, A.RootOf(p.w.spaces[id]);
      && Seen(m, root, 0x40_0000, AlignUp(|s.text|), s.text, false)
      && Seen(m, root, DataBase(s), AlignUp(|s.data|), s.data, true)
      && Seen(m, root, BssBase(s), AlignUp(s.bssSize), [], true)
  {
    hide Lookup, WellFormed, UserReach, Placed, DataKept, Contains, Seen, AlignUp, LoadedAs, AllContain, SameRoots;
    ChainLoads(hist, parts, id, owner, total);
    ChainRoots(hist, parts, id, owner, total);
    LayoutMeaning(s);
    FollowsSane(s, parts, hist, id, owner, total);
    PartSeen(p, p', id, parts, 0);
    assert AsPlanned(parts[0]) == Plan(s)[0];
    EmptySeen(p'.w.ram, A.RootOf(p.w.spaces[id]), DataBase(s), s.data);
    EmptySeen(p'.w.ram, A.RootOf(p.w.spaces[id]), BssBase(s), []);
    ZeroSize();
    if s.data != [] {
      assert AsPlanned(parts[1]) == Plan(s)[1];
      PartSeen(p, p', id, parts, 1);
    }
    if s.bssSize > 0 {
      var k := |parts| - 1;
      assert AsPlanned(parts[k]) == Plan(s)[k];
      PartSeen(p, p', id, parts, k);
    }
  }

  lemma EmptySeen(m: Ram, r: nat, base: nat, data: seq<Byte>)
    ensures Seen(m, r, base, 0, data, true)
  {
  }

  lemma ZeroSize()
    ensures AlignUp(0) == 0
  {
  }

  lemma ChainRoots(hist: seq<Snap>, parts: seq<Part>, id: nat, owner: nat, total: nat)
    requires Chain(hist, parts, id, owner, total) && parts != []
    ensures var p, p' := hist[0], hist[|parts|];
      && id in p.w.spaces && Root(p.w.lvl, A.RootOf(p.w.spaces[id])) && Root(p'.w.lvl, A.RootOf(p.w.spaces[id]))
      && p.w.spaces[id].owner == owner
  {
    hide Lookup, Patched, AllEmpty, Spent, DataKept;
    ChainAt(hist, parts, id, owner, total, 0);
    ChainLoads(hist, parts, id, owner, total);
    A.UnmapRefusalMeaning(hist[0].w.spaces, id, owner, parts[0].seg.virt, parts[0].seg.size);
  }

  lemma FollowsSane(s: Sections, parts: seq<Part>, hist: seq<Snap>, id: nat, owner: nat, total: nat)
    requires Loadable(s) && Follows(parts, Plan(s)) && Chain(hist, parts, id, owner, total)
    ensures Sane(parts)
  {
    hide Lookup, Patched, AllEmpty, Spent, DataKept, Plan, SameRoots, AlignUp;
    PlanIsSane(s);
    forall i | 0 <= i < |parts| ensures AsPlanned(parts[i]) == Plan(s)[i] && Aligned(parts[i].seg.phys) {
      ChainAt(hist, parts, id, owner, total, i);
    }
    forall i, j | 0 <= i < j < |parts| ensures parts[i].seg.virt + parts[i].seg.size <= parts[j].seg.virt {
      assert AsPlanned(parts[i]) == Plan(s)[i] && AsPlanned(parts[j]) == Plan(s)[j];
    }
  }

  lemma NothingSettled(w: A.World, f: set<nat>, id: nat)
    ensures Undone(w, f, w, f, id, 0)
  {
    DataKeptRefl(w.ram, w.lvl, f);
    NothingSpent(w.lvl, f);
  }

  lemma NoChain(hist: seq<Snap>, id: nat, owner: nat, total: nat, m: Ram)
    requires |hist| == 1
    ensures Chain(hist, [], id, owner, total) && AllContain(m, [])
  {
  }
}
