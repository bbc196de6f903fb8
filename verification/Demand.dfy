/** What a run of pages takes: the tables that mapping it adds, and how many pages of it
    can be mapped with the frames that are free. */
module Demand {
  import opened Words
  import opened PageTables
  import opened Regions
  import P = Pmm
  import V = Vm

  // ----- the tables a run of pages needs -----

  /** The walks to two pages go through the same table of level `k`. */
  ghost predicate SamePath(p: nat, q: nat, k: nat) {
    forall j :: k < j <= 4 ==> Idx(p, j) == Idx(q, j)
  }

  /** One of the first `n` pages of the run shares its table of level `k` with page `q`. */
  ghost predicate Covered(virt: Usize, n: nat, q: nat, k: nat) {
    exists i :: 0 <= i < n && SamePath(PageNo(virt, i), q, k)
  }

  /** One, if the `i`-th page of the run is the first to go through a table of level `k`
      that does not exist. */
  ghost function Gap(m: Ram, r: nat, virt: Usize, i: nat, k: nat): nat
    requires 1 <= k <= 3
  {
    var p := PageNo(virt, i);
    if Tab(m, r, p, k).None? && !Covered(virt, i, p, k) then 1 else 0
  }

  /** The number of tables that mapping the first `n` pages of the run adds. */
  ghost function Needed(m: Ram, r: nat, virt: Usize, n: nat): nat {
    if n == 0 then 0
    else
      var i := n - 1;
      Needed(m, r, virt, i) + Gap(m, r, virt, i, 1) + Gap(m, r, virt, i, 2) + Gap(m, r, virt, i, 3)
  }

  /** Memory `m'` has the tables of `m` and those of the first `n` pages, and no others. */
  ghost predicate Paved(m: Ram, m': Ram, r: nat, virt: Usize, n: nat) {
    forall q: nat, k: nat :: 1 <= k <= 3 ==>
      (Tab(m', r, q, k).Some? <==> Tab(m, r, q, k).Some? || Covered(virt, n, q, k))
  }

  lemma PavedNone(m: Ram, r: nat, virt: Usize)
    ensures Paved(m, m, r, virt, 0)
  {
  }

  lemma {:induction false} SamePathTab(m: Ram, r: nat, p: nat, q: nat, k: nat)
    requires 1 <= k <= 4 && SamePath(p, q, k)
    ensures Tab(m, r, p, k) == Tab(m, r, q, k)
    decreases 4 - k
  {
    if k < 4 { SamePathTab(m, r, p, q, k + 1); }
  }

  /** The new tables of the walk to `p`. */
  ghost function NewOnPath(m: Ram, m': Ram, r: nat, p: nat): set<nat>
    requires Tab(m', r, p, 1).Some?
  {
    set k | 1 <= k <= 3 && Tab(m, r, p, k).None? && Tab(m', r, p, k).Some? :: Tab(m', r, p, k).value
  }

  lemma NewOnPathSize(m: Ram, lvl: Levels, m': Ram, lvl': Levels, r: nat, p: nat)
    requires WellFormed(m', lvl') && Root(lvl', r) && Tab(m', r, p, 1).Some?
    ensures |NewOnPath(m, m', r, p)| == Missing(m, r, p)
  {
    hide Tab;
    MissingMeaning(m, r, p);
    MissingMeaning(m', r, p);
    TabLevel(m', lvl', r, p, 1);
    TabLevel(m', lvl', r, p, 2);
    TabLevel(m', lvl', r, p, 3);
    var t1, t2, t3 := Tab(m', r, p, 1).value, Tab(m', r, p, 2).value, Tab(m', r, p, 3).value;
    var s := NewOnPath(m, m', r, p);
    if Tab(m, r, p, 3).None? {
      assert s == {t1, t2, t3};
    } else if Tab(m, r, p, 2).None? {
      assert s == {t1, t2};
    } else if Tab(m, r, p, 1).None? {
      assert s == {t1};
    } else {
      assert s == {};
    }
  }

  /** Mapping one page at the price of its missing tables adds exactly those. */
  lemma NewTables(m: Ram, lvl: Levels, f: set<nat>, m': Ram, lvl': Levels, f': set<nat>, r: nat, p: nat)
    requires WellFormed(m', lvl') && Root(lvl, r) && Grows(m, lvl, m', lvl', r) && Paid(lvl, f, lvl', f')
    requires Tab(m', r, p, 1).Some? && |f'| == |f| - Missing(m, r, p)
    ensures forall q: nat, k: nat :: 1 <= k <= 3 ==>
      (Tab(m', r, q, k).Some? <==> Tab(m, r, q, k).Some? || SamePath(p, q, k))
  {
    assert Root(lvl', r);
    hide Tab, WellFormed, SamePath, Missing;
    var s := NewOnPath(m, m', r, p);
    NewOnPathSize(m, lvl, m', lvl', r, p);
    forall c | c in s ensures c in f - f' {
      var k :| 1 <= k <= 3 && Tab(m, r, p, k).None? && Tab(m', r, p, k) == Some(c);
      TabLevel(m', lvl', r, p, k);
    }
    P.SubsetSize(f', f);
    P.SubsetSize(s, f - f');
    assert f - f' == s;
    forall q: nat, k: nat | 1 <= k <= 3
      ensures Tab(m', r, q, k).Some? <==> Tab(m, r, q, k).Some? || SamePath(p, q, k)
    {
      NewTable(m, lvl, f, m', lvl', f', r, p, q, k);
    }
  }

  lemma NewTable(m: Ram, lvl: Levels, f: set<nat>, m': Ram, lvl': Levels, f': set<nat>, r: nat, p: nat, q: nat, k: nat)
    requires WellFormed(m', lvl') && Root(lvl, r) && Grows(m, lvl, m', lvl', r) && Paid(lvl, f, lvl', f')
    requires Tab(m', r, p, 1).Some? && f - f' == NewOnPath(m, m', r, p) && 1 <= k <= 3
    ensures Tab(m', r, q, k).Some? <==> Tab(m, r, q, k).Some? || SamePath(p, q, k)
  {
    assert Root(lvl', r);
    MissingMeaning(m', r, p);
    hide Tab, WellFormed;
    if SamePath(p, q, k) { SamePathTab(m', r, p, q, k); }
    if Tab(m', r, q, k).Some? && Tab(m, r, q, k).None? {
      var c := Tab(m', r, q, k).value;
      TabLevel(m', lvl', r, q, k);
      assert c in f - f';
      var j :| 1 <= j <= 3 && Tab(m', r, p, j) == Some(c);
      TabLevel(m', lvl', r, p, j);
      TabInjective(m', lvl', r, p, r, q, k);
    }
  }

  /** On paved memory the next page lacks exactly the tables it is the first to need. */
  lemma PavedMissing(m: Ram, m': Ram, r: nat, virt: Usize, i: nat)
    requires Paved(m, m', r, virt, i)
    ensures Needed(m, r, virt, i + 1) == Needed(m, r, virt, i) + Missing(m', r, PageNo(virt, i))
  {
    hide Tab, Covered, PageNo;
    MissingMeaning(m', r, PageNo(virt, i));
  }

  lemma PavedNext(m: Ram, m1: Ram, m2: Ram, r: nat, virt: Usize, i: nat)
    requires Paved(m, m1, r, virt, i)
    requires forall q: nat, k: nat :: 1 <= k <= 3 ==>
      (Tab(m2, r, q, k).Some? <==> Tab(m1, r, q, k).Some? || SamePath(PageNo(virt, i), q, k))
    ensures Paved(m, m2, r, virt, i + 1)
  {
    hide Tab, SamePath, PageNo;
    forall q: nat, k: nat | 1 <= k <= 3
      ensures Covered(virt, i + 1, q, k) <==> Covered(virt, i, q, k) || SamePath(PageNo(virt, i), q, k)
    {
    }
  }

  /** So mapping the next page of a run pays for what it is the first to need. */
  lemma PaveStep(
    m: Ram, m1: Ram, lvl1: Levels, f1: set<nat>, m2: Ram, lvl2: Levels, f2: set<nat>, r: nat, virt: Usize, i: nat)
    requires Paved(m, m1, r, virt, i) && WellFormed(m2, lvl2) && Root(lvl1, r)
    requires Grows(m1, lvl1, m2, lvl2, r) && Paid(lvl1, f1, lvl2, f2)
    requires Tab(m2, r, PageNo(virt, i), 1).Some? && |f2| == |f1| - Missing(m1, r, PageNo(virt, i))
    ensures Paved(m, m2, r, virt, i + 1)
    ensures |f2| == |f1| - Needed(m, r, virt, i + 1) + Needed(m, r, virt, i)
  {
    hide *;
    NewTables(m1, lvl1, f1, m2, lvl2, f2, r, PageNo(virt, i));
    PavedNext(m, m1, m2, r, virt, i);
    PavedMissing(m, m1, r, virt, i);
  }

  lemma {:induction false} NeededGrows(m: Ram, r: nat, virt: Usize, k: nat, n: nat)
    requires k <= n
    ensures Needed(m, r, virt, k) <= Needed(m, r, virt, n)
    decreases n
  {
    hide Gap;
    if k < n { NeededGrows(m, r, virt, k, n - 1); }
  }

  /** Memories with the same tables need the same. */
  lemma {:induction false} NeededSame(m: Ram, m': Ram, lvl: Levels, r: nat, virt: Usize, n: nat)
    requires WellFormed(m', lvl) && Root(lvl, r) && Grows(m, lvl, m', lvl, r)
    ensures Needed(m', r, virt, n) == Needed(m, r, virt, n)
  {
    hide Tab, WellFormed, PageNo, Covered;
    if n > 0 {
      NeededSame(m, m', lvl, r, virt, n - 1);
      var p := PageNo(virt, n - 1);
      TabLevel(m', lvl, r, p, 1);
      TabLevel(m', lvl, r, p, 2);
      TabLevel(m', lvl, r, p, 3);
    }
  }

  // ----- how far a run can be mapped -----

  /** The first `n` pages are empty, and enough frames are free for their tables. */
  ghost predicate Fits(m: Ram, r: nat, virt: Usize, n: nat, free: nat) {
    Vacant(m, r, virt, n) && Needed(m, r, virt, n) <= free
  }

  /** How many of the `n` pages can be mapped in a row. */
  ghost function Reach(m: Ram, r: nat, virt: Usize, n: nat, free: nat): (k: nat)
    ensures k <= n && Fits(m, r, virt, k, free)
    ensures k < n ==> !Fits(m, r, virt, k + 1, free)
  {
    if n == 0 then 0
    else
      var k := Reach(m, r, virt, n - 1, free);
      if k == n - 1 && Fits(m, r, virt, n, free) then n else k
  }

  lemma FitsVacant(m: Ram, r: nat, virt: Usize, n: nat, free: nat)
    requires Fits(m, r, virt, n, free)
    ensures Vacant(m, r, virt, n)
  {
  }

  lemma FitsLess(m: Ram, r: nat, virt: Usize, k: nat, n: nat, free: nat)
    requires k <= n && Fits(m, r, virt, n, free)
    ensures Fits(m, r, virt, k, free)
  {
    NeededGrows(m, r, virt, k, n);
  }

  /** The run of pages that was mapped is the longest that fits. */
  lemma ReachIs(m: Ram, r: nat, virt: Usize, n: nat, free: nat, k: nat)
    requires k <= n && Fits(m, r, virt, k, free) && (k < n ==> !Fits(m, r, virt, k + 1, free))
    ensures k == Reach(m, r, virt, n, free)
    ensures k == n <==> Fits(m, r, virt, n, free)
  {
    hide Fits;
    var j := Reach(m, r, virt, n, free);
    if j < k {
      FitsLess(m, r, virt, j + 1, k, free);
    } else if k < j {
      FitsLess(m, r, virt, k + 1, j, free);
    }
    if k < n && Fits(m, r, virt, n, free) { FitsLess(m, r, virt, k + 1, n, free); }
  }

  lemma FitsNone(m: Ram, r: nat, virt: Usize, free: nat)
    ensures Needed(m, r, virt, 0) == 0 && Fits(m, r, virt, 0, free)
  {
  }

  /** Mapping the next page of a run fails exactly when the run no longer fits. */
  lemma NextFits(
    m: Ram, m': Ram, r: nat, virt: Usize, k: nat, free: nat, free': nat, pml4: Usize, v: Usize, a: Usize)
    requires Paved(m, m', r, virt, k) && free' == free - Needed(m, r, virt, k) && Fits(m, r, virt, k, free)
    requires Aligned(v) && Aligned(a) && r == pml4 / PAGE_SIZE && PageOf(v) == PageNo(virt, k)
    requires Lookup(m', r, PageNo(virt, k)).None? ==> Lookup(m, r, PageNo(virt, k)).None?
    ensures V.MapOutcome(m', free', pml4, v, a).Ok? ==> pml4 != 0 && Fits(m, r, virt, k + 1, free)
    ensures Lookup(m', r, PageNo(virt, k)) == Lookup(m, r, PageNo(virt, k)) ==>
      (V.MapOutcome(m', free', pml4, v, a).Ok? <==> pml4 != 0 && Fits(m, r, virt, k + 1, free))
    ensures V.MapOutcome(m', free', pml4, v, a).Err? ==>
      V.MapOutcome(m', free', pml4, v, a).error ==
        if pml4 == 0 then V.NotInitialized
        else if Needed(m, r, virt, k + 1) > free then V.OutOfMemory else V.AlreadyMapped
  {
    hide Lookup, Needed, Paved, PageNo, Missing;
    PavedMissing(m, m', r, virt, k);
  }

  /** One page alone needs the tables missing on its walk. */
  lemma NeededOne(m: Ram, r: nat, virt: Usize)
    ensures Needed(m, r, virt, 1) == Missing(m, r, PageNo(virt, 0)) && Needed(m, r, virt, 1) <= 3
    ensures PageOf(virt) == PageNo(virt, 0)
  {
    PavedNone(m, r, virt);
    PavedMissing(m, m, r, virt, 0);
  }

  // ----- how long a mapped run can be -----

  /** The leaf entry of a page, counted over all of memory. */
  function Slot(m: Ram, r: nat, p: nat): nat
    requires Tab(m, r, p, 1).Some?
  {
    Tab(m, r, p, 1).value * ENTRIES + Idx(p, 1)
  }

  lemma SlotParts(t: nat, i: nat, u: nat, j: nat)
    requires i < ENTRIES && j < ENTRIES && t * ENTRIES + i == u * ENTRIES + j
    ensures t == u && i == j
  {
  }

  lemma SlotInjective(m: Ram, lvl: Levels, r: nat, p: nat, q: nat)
    requires WellFormed(m, lvl) && Root(lvl, r) && p < PAGES && q < PAGES
    requires Tab(m, r, p, 1).Some? && Tab(m, r, q, 1).Some? && Slot(m, r, p) == Slot(m, r, q)
    ensures p == q
  {
    SlotParts(Tab(m, r, p, 1).value, Idx(p, 1), Tab(m, r, q, 1).value, Idx(q, 1));
    TabInjective(m, lvl, r, p, r, q, 1);
    IdxInjective(p, q);
  }

  ghost function Slots(m: Ram, r: nat, virt: Usize, n: nat): set<nat>
    requires forall i :: 0 <= i < n ==> Tab(m, r, PageNo(virt, i), 1).Some?
  {
    if n == 0 then {} else Slots(m, r, virt, n - 1) + {Slot(m, r, PageNo(virt, n - 1))}
  }

  lemma {:induction false} SlotsOf(m: Ram, lvl: Levels, r: nat, virt: Usize, n: nat)
    requires WellFormed(m, lvl) && Root(lvl, r) && Aligned(virt) && n <= PAGES
    requires forall i :: 0 <= i < n ==> Tab(m, r, PageNo(virt, i), 1).Some?
    ensures |Slots(m, r, virt, n)| == n && Slots(m, r, virt, n) <= P.Range(0, |m| * ENTRIES)
    ensures forall x :: x in Slots(m, r, virt, n) ==> exists i :: 0 <= i < n && x == Slot(m, r, PageNo(virt, i))
  {
    hide Tab, PageNo, WellFormed;
    if n > 0 {
      SlotsOf(m, lvl, r, virt, n - 1);
      var p := PageNo(virt, n - 1);
      SlotInMemory(m, lvl, r, p);
      if Slot(m, r, p) in Slots(m, r, virt, n - 1) {
        var i :| 0 <= i < n - 1 && Slot(m, r, p) == Slot(m, r, PageNo(virt, i));
        SlotInjective(m, lvl, r, p, PageNo(virt, i));
        PageNoInjective(virt, i, n - 1);
      }
    }
  }

  lemma SlotInMemory(m: Ram, lvl: Levels, r: nat, p: nat)
    requires WellFormed(m, lvl) && Root(lvl, r) && Tab(m, r, p, 1).Some?
    ensures Slot(m, r, p) in P.Range(0, |m| * ENTRIES)
  {
    TabLevel(m, lvl, r, p, 1);
  }

  /** A run that is mapped throughout is no longer than there are leaf entries in memory. */
  lemma FullBound(m: Ram, lvl: Levels, r: nat, virt: Usize, n: nat)
    requires WellFormed(m, lvl) && Root(lvl, r) && Aligned(virt) && |m| <= P.MAX_PAGES && Full(m, r, virt, n)
    ensures n <= P.MAX_PAGES * ENTRIES
  {
    var k := if n <= PAGES then n else PAGES;
    forall i | 0 <= i < k ensures Tab(m, r, PageNo(virt, i), 1).Some? {
      assert Lookup(m, r, PageNo(virt, i)).Some?;
    }
    SlotsOf(m, lvl, r, virt, k);
    P.RangeSize(0, |m| * ENTRIES);
    P.SubsetSize(Slots(m, r, virt, k), P.Range(0, |m| * ENTRIES));
  }
}
