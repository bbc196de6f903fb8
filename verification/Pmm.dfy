/** The physical memory manager (kernel/src/mm/pmm.rs): a bitmap of frames that
    refines a set of free pages, and the RAM those frames make up. */
module Pmm {
  import opened Words
  import opened PageTables

  const MAX_PAGES: nat := 256 * 1024
  const EFI_CONVENTIONAL_MEMORY: nat := 7

  datatype Descriptor = Descriptor(typ: nat, start: nat, pages: nat)

  // ----- bits -----

  /** A `u8` of the bitmap as its bits, lowest first. */
  type Byte = b: seq<bool> | |b| == 8 witness seq(8, _ => true)

  const FULL: Byte := seq(8, _ => true)

  predicate Taken(b: seq<Byte>, page: nat)
    requires page / 8 < |b|
  {
    b[page / 8][page % 8]
  }

  /** The free set a bitmap stands for: the pages below `total` whose bit is clear. */
  ghost function FreeSet(b: seq<Byte>, total: nat): (f: set<nat>)
    requires total <= 8 * |b|
    ensures forall p :: p in f ==> p < total
  {
    if total == 0 then {}
    else FreeSet(b, total - 1) + if Taken(b, total - 1) then {} else {total - 1}
  }

  lemma {:induction false} FreeSetMember(b: seq<Byte>, total: nat, p: nat)
    requires total <= 8 * |b| && p < total
    ensures p in FreeSet(b, total) <==> !Taken(b, p)
  {
    if p < total - 1 {
      FreeSetMember(b, total - 1, p);
    }
  }

  /** Changing one bit changes the membership of one page. */
  lemma TakeBit(b: seq<Byte>, total: nat, page: nat)
    requires page < total <= 8 * |b|
    ensures FreeSet(b[page / 8 := b[page / 8][page % 8 := true]], total) == FreeSet(b, total) - {page}
  {
    var b' := b[page / 8 := b[page / 8][page % 8 := true]];
    forall p: nat | p < total ensures p in FreeSet(b', total) <==> (p in FreeSet(b, total) && p != page) {
      FreeSetMember(b, total, p);
      FreeSetMember(b', total, p);
    }
  }

  lemma FreeBit(b: seq<Byte>, total: nat, page: nat)
    requires page < total <= 8 * |b|
    ensures FreeSet(b[page / 8 := b[page / 8][page % 8 := false]], total) == FreeSet(b, total) + {page}
  {
    var b' := b[page / 8 := b[page / 8][page % 8 := false]];
    forall p: nat | p < total ensures p in FreeSet(b', total) <==> (p in FreeSet(b, total) || p == page) {
      FreeSetMember(b, total, p);
      FreeSetMember(b', total, p);
    }
  }

  // ----- runs of pages -----

  /** The pages `s, s+1, ..., s+n-1`. */
  ghost function Range(s: nat, n: nat): set<nat> { Interval(s, s + n) }

  ghost function Interval(s: nat, e: nat): set<nat> { set p: nat | p < e && Within(p, s, e) }

  /** All `n` pages from `s` on are free. */
  ghost predicate RunFree(f: set<nat>, s: nat, n: nat) { Range(s, n) <= f }

  /** A free run ends below every bound of the free set and is no longer than
      the set is large. */
  lemma RunFits(f: set<nat>, s: nat, n: nat, total: nat)
    requires RunFree(f, s, n) && n > 0 && forall p :: p in f ==> p < total
    ensures s + n <= total && n <= |f| && |f - Range(s, n)| == |f| - n
  {
    assert s + n - 1 in Range(s, n);
    RangeSize(s, n);
    SubsetSize(Range(s, n), f);
  }

  lemma SingleRun(f: set<nat>)
    ensures forall s: nat :: RunFree(f, s, 1) <==> s in f
    ensures forall s: nat :: Range(s, 1) == {s}
  {
    assert forall s: nat :: s in Range(s, 1);
  }

  predicate Within(p: nat, s: nat, e: nat) { s <= p < e }

  lemma {:induction false} RangeSize(s: nat, n: nat)
    ensures |Range(s, n)| == n
  {
    if n != 0 {
      RangeSize(s, n - 1);
      assert Range(s, n) == Range(s, n - 1) + {s + n - 1};
    }
  }

  lemma SubsetSize(a: set<nat>, b: set<nat>)
    requires a <= b
    ensures |a| <= |b| && |b - a| == |b| - |a|
  {
    assert b == a + (b - a);
  }

  lemma TakenSize(f: set<nat>, p: nat)
    requires p in f
    ensures |f - {p}| == |f| - 1
  {
  }

  /** `free_pages` touches page `(addr + i * PAGE_SIZE) / PAGE_SIZE`, on a wrapping `usize`. */
  function PageAt(addr: Usize, i: nat): nat { (addr + i * PAGE_SIZE) % USIZE / PAGE_SIZE }

  ghost function Released(addr: Usize, count: nat, total: nat): set<nat> {
    set i: nat | i < count && Aligned(addr) && PageAt(addr, i) < total :: PageAt(addr, i)
  }

  lemma PageAtStep(addr: Usize, i: nat)
    ensures PageAt((addr + i * PAGE_SIZE) % USIZE, 0) == PageAt(addr, i)
    ensures Aligned(addr) == Aligned((addr + i * PAGE_SIZE) % USIZE)
    ensures Aligned(addr) && addr / PAGE_SIZE + i < MAX_PAGES ==> PageAt(addr, i) == addr / PAGE_SIZE + i
  {
  }

  lemma ReleasedStep(addr: Usize, i: nat, total: nat)
    ensures Released(addr, i + 1, total) ==
      Released(addr, i, total) + Released((addr + i * PAGE_SIZE) % USIZE, 1, total)
    ensures Aligned(addr) == Aligned((addr + i * PAGE_SIZE) % USIZE)
    ensures Aligned(addr) && addr / PAGE_SIZE + i < MAX_PAGES ==> PageAt(addr, i) == addr / PAGE_SIZE + i
  {
    var a := (addr + i * PAGE_SIZE) % USIZE;
    PageAtStep(addr, i);
    hide PageAt, Aligned;
    assert Released(a, 1, total) == if Aligned(addr) && PageAt(addr, i) < total then {PageAt(addr, i)} else {};
    assert forall p :: p in Released(addr, i, total) ==> p in Released(addr, i + 1, total);
  }

  /** A page that `free_page` counts without freeing it. */
  predicate Stray(addr: Usize, i: nat, total: nat) {
    Aligned(addr) && total <= PageAt(addr, i) < MAX_PAGES
  }

  lemma StrayStep(addr: Usize, i: nat, total: nat)
    ensures Stray((addr + i * PAGE_SIZE) % USIZE, 0, total) == Stray(addr, i, total)
  {
    PageAtStep(addr, i);
    hide PageAt, Aligned;
  }

  lemma ReleasedNone(addr: Usize, total: nat)
    ensures Released(addr, 0, total) == {}
  {
  }

  lemma ReleasedRange(s: nat, count: nat, total: nat)
    requires s + count <= total <= MAX_PAGES
    ensures Released(s * PAGE_SIZE, count, total) == Range(s, count)
  {
    forall i: nat | i < count ensures PageAt(s * PAGE_SIZE, i) == s + i {
    }
    forall p | p in Range(s, count) ensures p in Released(s * PAGE_SIZE, count, total) {
      assert PageAt(s * PAGE_SIZE, p - s) == p;
    }
  }

  /** `write_bytes(addr, 0, n * PAGE_SIZE)` on frames `s .. s+n`. */
  function Zeroed(m: Ram, s: nat, n: nat): (m': Ram)
    ensures |m'| == |m|
  {
    seq<Table>(|m|, p requires 0 <= p < |m| => ZeroedAt(m, s, n, p))
  }

  function ZeroedAt(m: Ram, s: nat, n: nat, p: nat): Table
    requires p < |m|
  {
    if s <= p < s + n then Blank() else m[p]
  }

  // ----- the memory map -----

  function Min(a: nat, b: nat): nat { if a < b then a else b }

  function EndPage(d: Descriptor): nat { SaturatingAdd(d.start / PAGE_SIZE, d.pages) }

  /** The descriptor says that page `p` is conventional memory. */
  ghost predicate Covers(d: Descriptor, p: nat) {
    d.typ == 7 && d.start / 4096 <= p < d.start / 4096 + d.pages
  }

  /** The page after the last one described, as far as pages are tracked. */
  ghost function Reach(d: Descriptor): nat {
    var end := d.start / 4096 + d.pages; if end < MAX_PAGES then end else MAX_PAGES
  }

  /** Pages of a conventional descriptor below `total`: what `init` sets free. */
  ghost function Usable(d: Descriptor, total: nat): set<nat> {
    set p: nat | p < total && Covers(d, p)
  }

  /** The usable pages are the run that `init` walks through. */
  lemma UsableIs(d: Descriptor, total: nat)
    requires total <= MAX_PAGES
    ensures var start, end := d.start / PAGE_SIZE, Min(EndPage(d), total);
      Usable(d, total) ==
        if d.typ != EFI_CONVENTIONAL_MEMORY || start >= end then {} else Range(start, end - start)
  {
    var start, end := d.start / PAGE_SIZE, Min(EndPage(d), total);
    forall p: nat | p < total ensures Covers(d, p) <==> d.typ == EFI_CONVENTIONAL_MEMORY && Within(p, start, end) {
    }
  }

  ghost function AllUsable(ds: seq<Descriptor>, total: nat): set<nat> {
    if ds == [] then {} else AllUsable(ds[..|ds| - 1], total) + Usable(ds[|ds| - 1], total)
  }

  /** No usable page is described twice. */
  ghost predicate NoOverlap(ds: seq<Descriptor>, total: nat) {
    forall i, j :: 0 <= i < j < |ds| ==> Usable(ds[i], total) !! Usable(ds[j], total)
  }

  lemma NoOverlapNone(total: nat)
    ensures NoOverlap([], total)
  {
  }

  /** A page is usable if some conventional descriptor covers it. */
  lemma UsablePages(ds: seq<Descriptor>, total: nat, p: nat)
    ensures p in AllUsable(ds, total) <==> p < total && exists i :: 0 <= i < |ds| && Covers(ds[i], p)
  {
    AllUsableMember(ds, total, p);
    if p in AllUsable(ds, total) {
      var i :| 0 <= i < |ds| && p in Usable(ds[i], total);
      assert Covers(ds[i], p);
    }
    if i :| 0 <= i < |ds| && Covers(ds[i], p) {
      assert p < total ==> p in Usable(ds[i], total);
    }
  }

  lemma RangeNext(s: nat, n: nat)
    ensures Range(s, 0) == {} && Range(s, n + 1) == Range(s, n) + {s + n}
  {
  }

  lemma {:induction false} AllUsableMember(ds: seq<Descriptor>, total: nat, p: nat)
    ensures p in AllUsable(ds, total) <==> exists i :: 0 <= i < |ds| && p in Usable(ds[i], total)
  {
    if ds != [] {
      AllUsableMember(ds[..|ds| - 1], total, p);
      if p in AllUsable(ds[..|ds| - 1], total) {
        var i :| 0 <= i < |ds| - 1 && p in Usable(ds[..|ds| - 1][i], total);
        assert p in Usable(ds[i], total);
      }
    }
  }

  /** Adding a descriptor keeps the map free of overlap exactly when its pages
      are all new. */
  lemma NoOverlapStep(ds: seq<Descriptor>, d: Descriptor, total: nat)
    ensures NoOverlap(ds + [d], total) <==> NoOverlap(ds, total) && AllUsable(ds, total) !! Usable(d, total)
  {
    var e := ds + [d];
    assert forall i :: 0 <= i < |ds| ==> e[i] == ds[i];
    if NoOverlap(e, total) {
      forall p | p in Usable(d, total) ensures p !in AllUsable(ds, total) {
        AllUsableMember(ds, total, p);
        assert forall i :: 0 <= i < |ds| ==> Usable(e[i], total) !! Usable(e[|ds|], total);
      }
      forall i, j | 0 <= i < j < |ds| ensures Usable(ds[i], total) !! Usable(ds[j], total) {
        assert Usable(e[i], total) !! Usable(e[j], total);
      }
    }
    if NoOverlap(ds, total) && AllUsable(ds, total) !! Usable(d, total) {
      forall i, j | 0 <= i < j < |e| ensures Usable(e[i], total) !! Usable(e[j], total) {
        if j == |ds| {
          forall p | p in Usable(ds[i], total) ensures p in AllUsable(ds, total) {
            AllUsableMember(ds, total, p);
          }
        }
      }
    }
  }

  /** The longest run of free pages: some run has this length and none is longer. */
  ghost predicate LongestRun(f: set<nat>, total: nat, n: nat) {
    && (exists s: nat :: s + n <= total && RunFree(f, s, n))
    && (forall s: nat, k: nat :: k > n && s + k <= total ==> !RunFree(f, s, k))
  }

  class Pmm {
    const bitmap: array<Byte>
    var total: nat
    var free: nat
    var largestRun: nat
    var ram: Ram

    predicate Shape()
      reads this
    {
      bitmap.Length == MAX_PAGES / 8 && total <= MAX_PAGES && |ram| == MAX_PAGES
    }

    ghost function Free(): set<nat>
      reads `total, bitmap
    {
      if total <= 8 * bitmap.Length then FreeSet(bitmap[..], total) else {}
    }

    /** `FREE_PAGES` is the size of the free set. */
    ghost predicate Counted()
      reads `total, `free, bitmap
    {
      free == |Free()|
    }

    /** How far `FREE_PAGES` runs ahead of the free set. */
    ghost function Excess(): int
      reads `total, `free, bitmap
    {
      free - |Free()|
    }

    ghost predicate Valid()
      reads this, bitmap
    {
      Shape() && Counted()
    }

    /** The static bitmap starts with every frame allocated. */
    constructor ()
      ensures Valid() && total == 0 && Free() == {} && fresh(bitmap)
    {
      bitmap := new Byte[MAX_PAGES / 8](_ => FULL);
      total, free, largestRun := 0, 0, 0;
      ram := seq(MAX_PAGES, _ => Blank());
    }

    function IsPageFree(page: nat): (r: bool)
      requires Shape()
      reads this, bitmap
      ensures r <==> page in Free()
    {
      if page < total then FreeSetMember(bitmap[..], total, page); !Taken(bitmap[..], page) else false
    }

    method SetPageFree(page: nat)
      requires Shape()
      modifies bitmap
      ensures Free() == if page < total then old(Free()) + {page} else old(Free())
    {
      if page < total {
        FreeBit(bitmap[..], total, page);
        ghost var b := bitmap[..];
        bitmap[page / 8] := bitmap[page / 8][page % 8 := false];
        assert bitmap[..] == b[page / 8 := b[page / 8][page % 8 := false]];
      }
    }

    method SetPageAllocated(page: nat)
      requires Shape()
      modifies bitmap
      ensures Free() == if page < total then old(Free()) - {page} else old(Free())
    {
      if page < total {
        TakeBit(bitmap[..], total, page);
        ghost var b := bitmap[..];
        bitmap[page / 8] := bitmap[page / 8][page % 8 := true];
        assert bitmap[..] == b[page / 8 := b[page / 8][page % 8 := true]];
      }
    }

    /** Takes the lowest free page, or nothing. */
    method AllocPage() returns (r: Option<Usize>)
      requires Shape()
      modifies `free, bitmap
      ensures Shape() && (old(Counted()) ==> Counted())
      ensures r.None? <==> old(free) == 0 || old(Free()) == {}
      ensures r.None? ==> free == old(free) && Free() == old(Free())
      ensures r.Some? ==> Aligned(r.value) && var page := r.value / PAGE_SIZE;
        && page in old(Free()) && (forall p :: p in old(Free()) ==> page <= p)
        && Free() == old(Free()) - {page} && free == old(free) - 1
    {
      hide FreeSet;
      if free == 0 {
        return None;
      }
      var page := LowestFree();
      if page.None? {
        return None;
      }
      TakenSize(Free(), page.value);
      SetPageAllocated(page.value);
      free := free - 1;
      return Some(page.value * PAGE_SIZE);
    }

    /** The search of `alloc_page`. */
    method LowestFree() returns (r: Option<nat>)
      requires Shape()
      ensures r.None? ==> Free() == {}
      ensures r.Some? ==> r.value < total && r.value in Free() && forall p :: p in Free() ==> r.value <= p
    {
      hide FreeSet;
      for page := 0 to total
        invariant forall p: nat :: p < page ==> p !in Free()
      {
        if IsPageFree(page) {
          return Some(page);
        }
      }
      assert forall p :: p in Free() ==> p < total;
      return None;
    }

    /** Frees one page. A page between the tracked total and `MAX_PAGES` is
        counted without becoming free; every other call keeps the count exact. */
    method FreePage(addr: Usize)
      requires Shape()
      modifies `free, bitmap
      ensures Shape()
      ensures Free() == old(Free()) + Released(addr, 1, total)
      ensures Excess() == old(Excess()) + (if Stray(addr, 0, total) then 1 else 0)
      ensures old(Counted()) ==> (Counted() <==> !Stray(addr, 0, total))
    {
      assert PageAt(addr, 0) == addr / PAGE_SIZE;
      if addr % PAGE_SIZE != 0 {
        return;
      }
      var page := addr / PAGE_SIZE;
      if page >= MAX_PAGES {
        return;
      }
      if !IsPageFree(page) {
        SetPageFree(page);
        free := free + 1;
      }
    }

    /** Takes the lowest run of `count` free pages; with an exact count it fails
        exactly when there is none. */
    method AllocPages(count: nat) returns (r: Option<Usize>)
      requires Shape()
      modifies `free, bitmap
      ensures Shape() && (old(Counted()) ==> Counted())
      ensures r.None? ==> free == old(free) && Free() == old(Free())
      ensures old(Counted()) ==> (r.None? <==> count == 0 || forall s: nat :: !RunFree(old(Free()), s, count))
      ensures r.Some? ==> count > 0 && Aligned(r.value) && var s := r.value / PAGE_SIZE;
        && s + count <= total && RunFree(old(Free()), s, count)
        && (forall t: nat :: t < s ==> !RunFree(old(Free()), t, count))
        && Free() == old(Free()) - Range(s, count) && free == old(free) - count
    {
      hide FreeSet, RunFree, Range;
      ghost var f := Free();
      if count == 0 {
        return None;
      }
      if count == 1 {
        r := AllocPage();
        SingleRun(f);
        return;
      }
      forall s: nat | RunFree(f, s, count) ensures s + count <= total && count <= |f| {
        RunFits(f, s, count, total);
      }
      if free < count || total < count {
        return None;
      }
      var start := FindRun(count);
      if start.None? {
        return None;
      }
      RunFits(f, start.value, count, total);
      TakeRun(start.value, count);
      free := free - count;
      return Some(start.value * PAGE_SIZE);
    }

    /** The search of `alloc_pages`: the first start all of whose pages are free. */
    method FindRun(count: nat) returns (r: Option<nat>)
      requires Shape() && count <= total
      ensures r.Some? ==> r.value + count <= total && RunFree(Free(), r.value, count)
      ensures forall s: nat :: s < (if r.Some? then r.value else total - count + 1) ==> !RunFree(Free(), s, count)
    {
      hide FreeSet;
      for start := 0 to total - count + 1
        invariant forall s: nat :: s < start ==> !RunFree(Free(), s, count)
      {
        var i := 0;
        while i < count && IsPageFree(start + i)
          invariant i <= count && Range(start, i) <= Free()
        {
          assert Range(start, i + 1) == Range(start, i) + {start + i};
          i := i + 1;
        }
        if i == count {
          return Some(start);
        }
        assert start + i in Range(start, count);
      }
      return None;
    }

    method TakeRun(start: nat, count: nat)
      requires Shape() && start + count <= total
      modifies bitmap
      ensures Free() == old(Free()) - Range(start, count)
    {
      hide FreeSet;
      for i := 0 to count
        invariant Free() == old(Free()) - Range(start, i)
      {
        SetPageAllocated(start + i);
        assert Range(start, i + 1) == Range(start, i) + {start + i};
      }
      assert Range(start, 0) == {};
    }

    /** Frees `count` pages from `addr` on. An exact count stays exact if and only if none
        of the pages lies between the tracked total and `MAX_PAGES`. */
    method FreePages(addr: Usize, count: nat)
      requires Shape()
      modifies `free, bitmap
      ensures Shape() && Free() == old(Free()) + Released(addr, count, total)
      ensures old(Counted()) ==> (Counted() <==> forall i :: 0 <= i < count ==> !Stray(addr, i, total))
      ensures Aligned(addr) && addr / PAGE_SIZE + count <= total && old(Counted()) ==> Counted()
    {
      hide FreeSet, Released;
      assert Released(addr, 0, total) == {} by { ReleasedNone(addr, total); }
      for i := 0 to count
        invariant Shape() && Free() == old(Free()) + Released(addr, i, total)
        invariant Excess() >= old(Excess())
        invariant Excess() == old(Excess()) <==> forall j :: 0 <= j < i ==> !Stray(addr, j, total)
      {
        ReleasedStep(addr, i, total);
        StrayStep(addr, i, total);
        FreePage((addr + i * PAGE_SIZE) % USIZE);
      }
      forall i | 0 <= i < count && Aligned(addr) && addr / PAGE_SIZE + count <= total ensures !Stray(addr, i, total) {
        ReleasedStep(addr, i, total);
      }
    }

    method AllocPageZeroed() returns (r: Option<Usize>)
      requires Shape()
      modifies `free, `ram, bitmap
      ensures Shape() && (old(Counted()) ==> Counted())
      ensures r.None? <==> old(free) == 0 || old(Free()) == {}
      ensures r.None? ==> free == old(free) && Free() == old(Free()) && ram == old(ram)
      ensures r.Some? ==> Aligned(r.value) && var page := r.value / PAGE_SIZE;
        && page in old(Free()) && (forall p :: p in old(Free()) ==> page <= p)
        && Free() == old(Free()) - {page} && free == old(free) - 1
        && ram == old(ram)[page := Blank()]
    {
      r := AllocPage();
      if r.Some? {
        ram := ram[r.value / PAGE_SIZE := Blank()];
      }
    }

    /** The lowest run of `count.max(1)` free pages, zeroed; with an exact count it fails
        exactly when there is none. */
    method AllocPagesZeroed(count: nat) returns (r: Option<Usize>)
      requires Shape()
      modifies `free, `ram, bitmap
      ensures Shape() && (old(Counted()) ==> Counted())
      ensures r.None? ==> free == old(free) && Free() == old(Free()) && ram == old(ram)
      ensures old(Counted()) ==> var n := if count == 0 then 1 else count;
        (r.None? <==> forall s: nat :: !RunFree(old(Free()), s, n))
      ensures r.Some? ==> Aligned(r.value) && var n, s := if count == 0 then 1 else count, r.value / PAGE_SIZE;
        && s + n <= total && RunFree(old(Free()), s, n) && Free() == old(Free()) - Range(s, n)
        && (forall t: nat :: t < s ==> !RunFree(old(Free()), t, n))
        && free == old(free) - n && |ram| == |old(ram)|
        && forall p :: 0 <= p < |ram| ==> ram[p] == if s <= p < s + n then Blank() else old(ram)[p]
    {
      var n := if count == 0 then 1 else count;
      r := AllocPages(n);
      if r.Some? {
        ram := Zeroed(ram, r.value / PAGE_SIZE, n);
      }
    }

    /** Frees every usable page of the memory map. Each usable page is counted
        once per descriptor, so the count is exact if and only if no page is
        described twice. */
    method Init(ds: seq<Descriptor>)
      requires Shape()
      modifies this, bitmap
      ensures Shape() && total <= MAX_PAGES && ram == old(ram)
      ensures forall i :: 0 <= i < |ds| ==> Reach(ds[i]) <= total
      ensures total == 0 || exists i :: 0 <= i < |ds| && total == Reach(ds[i])
      ensures Free() == AllUsable(ds, total)
      ensures forall p: nat :: p in Free() <==> p < total && exists i :: 0 <= i < |ds| && Covers(ds[i], p)
      ensures Counted() <==> NoOverlap(ds, total)
      ensures LongestRun(Free(), total, largestRun)
    {
      total := TrackedPages(ds);
      Fill();
      free := FreeAll(ds);
      largestRun := MeasureRuns();
      forall p: nat
        ensures p in Free() <==> p < total && exists i :: 0 <= i < |ds| && Covers(ds[i], p)
      {
        UsablePages(ds, total, p);
      }
    }

    /** The second loop of `init`. */
    method FreeAll(ds: seq<Descriptor>) returns (n: nat)
      requires Shape() && Free() == {}
      modifies bitmap
      ensures Free() == AllUsable(ds, total)
      ensures n == |Free()| <==> NoOverlap(ds, total)
    {
      hide FreeSet, Usable, NoOverlap;
      NoOverlapNone(total);
      n := 0;
      for i := 0 to |ds|
        invariant Free() == AllUsable(ds[..i], total)
        invariant n >= |Free()| && (n == |Free()| <==> NoOverlap(ds[..i], total))
      {
        ghost var before := Free();
        NoOverlapStep(ds[..i], ds[i], total);
        assert ds[..i + 1] == ds[..i] + [ds[i]] && ds[..i + 1][..i] == ds[..i];
        var added := FreeUsable(ds[i]);
        n := n + added;
        UnionSize(before, Usable(ds[i], total));
      }
      assert ds[..|ds|] == ds;
    }

    /** The first loop of `init`: the highest described page, capped. */
    static method TrackedPages(ds: seq<Descriptor>) returns (t: nat)
      ensures t <= MAX_PAGES
      ensures forall i :: 0 <= i < |ds| ==> Reach(ds[i]) <= t
      ensures t == 0 || exists i :: 0 <= i < |ds| && t == Reach(ds[i])
    {
      var end := 0;
      for i := 0 to |ds|
        invariant forall j :: 0 <= j < i ==> EndPage(ds[j]) <= end
        invariant end == 0 || exists j :: 0 <= j < i && end == EndPage(ds[j])
      {
        if EndPage(ds[i]) > end {
          end := EndPage(ds[i]);
        }
      }
      t := Min(end, MAX_PAGES);
    }

    /** `write_bytes(BITMAP, 0xFF)`: nothing is free. */
    method Fill()
      requires Shape()
      modifies bitmap
      ensures Free() == {}
    {
      forall i | 0 <= i < bitmap.Length {
        bitmap[i] := FULL;
      }
      forall p: nat | p < total ensures p !in Free() {
        FreeSetMember(bitmap[..], total, p);
        assert bitmap[..][p / 8] == FULL;
      }
    }

    /** The inner loop of `init`: one descriptor. */
    method FreeUsable(d: Descriptor) returns (n: nat)
      requires Shape()
      modifies bitmap
      ensures Shape() && Free() == old(Free()) + Usable(d, total)
      ensures n == |Usable(d, total)|
    {
      hide FreeSet, Usable, Range, EndPage;
      UsableIs(d, total);
      var start, end := d.start / PAGE_SIZE, Min(EndPage(d), total);
      if d.typ != EFI_CONVENTIONAL_MEMORY || start >= total {
        return 0;
      }
      RangeNext(start, 0);
      if start < end {
        n := FreeRun(start, end);
        RangeSize(start, n);
      } else {
        n := 0;
      }
    }

    /** Its loop over the pages from `start` to `end`. */
    method FreeRun(start: nat, end: nat) returns (n: nat)
      requires Shape() && start <= end <= total
      modifies bitmap
      ensures Shape() && Free() == old(Free()) + Range(start, end - start) && n == end - start
    {
      hide FreeSet, Range;
      n := 0;
      RangeNext(start, 0);
      for page := start to end
        invariant n == page - start && Free() == old(Free()) + Range(start, n)
      {
        SetPageFree(page);
        RangeNext(start, n);
        n := n + 1;
      }
    }

    /** The closing scan of `init`. */
    method MeasureRuns() returns (max: nat)
      requires Shape()
      ensures LongestRun(Free(), total, max)
    {
      hide FreeSet;
      var run := 0;
      max := 0;
      ghost var f := Free();
      ghost var at: nat := 0;
      for page := 0 to total
        invariant run <= page && at + max <= page && run <= max
        invariant Range(page - run, run) <= f && RunFree(f, at, max)
        invariant run < page ==> page - 1 - run !in f
        invariant forall s: nat, k: nat :: k > max && s + k <= page ==> !RunFree(f, s, k)
      {
        if IsPageFree(page) {
          assert Range(page - run, run + 1) == Range(page - run, run) + {page};
          run := run + 1;
          forall s: nat, k: nat | k > max && s + k == page + 1 && RunFree(f, s, k) ensures k <= run {
            assert k > run ==> page - run in Range(s, k);
          }
          if run > max {
            max, at := run, page + 1 - run;
          }
        } else {
          forall s: nat, k: nat | k > max && s + k == page + 1 ensures !RunFree(f, s, k) {
            assert page in Range(s, k);
          }
          run := 0;
        }
      }
      assert at + max <= total && RunFree(f, at, max);
    }
  }

  /** A union is as large as its parts exactly when they are disjoint. */
  lemma UnionSize(a: set<nat>, b: set<nat>)
    ensures |a + b| <= |a| + |b|
    ensures |a + b| == |a| + |b| <==> a !! b
  {
    assert a + b == a + (b - a);
    assert b == (b - a) + (a * b);
    if a * b == {} {
      assert a !! b;
    }
  }
}
