/** Effects of mapping operations on runs of pages, as values: what one page
    write does to the lower half, and how such writes add up. */
module Regions {
  import opened Words
  import opened PageTables
  import opened Pmm

  /** Page `p` of root `r` is now `o`; no other translation of any root differs. */
  ghost predicate PageSet(m: Ram, m': Ram, lvl: Levels, r: nat, p: nat, o: Option<Word>) {
    forall s: nat, q: nat :: Root(lvl, s) && q < PAGES ==>
      Lookup(m', s, q) == if s == r && q == p then o else Lookup(m, s, q)
  }

  /** The pages of `r` from `base` on now translate as `ws` says; no other
      translation of any root differs. */
  ghost predicate Patched(m: Ram, m': Ram, lvl: Levels, r: nat, base: nat, ws: seq<Option<Word>>) {
    forall s: nat, q: nat :: Root(lvl, s) && q < PAGES ==>
      Lookup(m', s, q) == if s == r && base <= q < base + |ws| then ws[q - base] else Lookup(m, s, q)
  }

  /** In the lower half a page write is private to its root. */
  lemma PrivateSet(m: Ram, m': Ram, lvl: Levels, r: nat, p: nat, o: Option<Word>)
    requires WellFormed(m, lvl) && Root(lvl, r) && p < USER_PAGES && LookupSet(m, m', lvl, r, p, o)
    ensures PageSet(m, m', lvl, r, p, o)
  {
    forall s: nat, q: nat | Root(lvl, s) && q < PAGES
      ensures Lookup(m', s, q) == if s == r && q == p then o else Lookup(m, s, q)
    {
      LowerHalfPrivate(m, lvl, r, s, p);
    }
  }

  lemma PatchNone(m: Ram, m': Ram, lvl: Levels, r: nat, base: nat)
    ensures Patched(m, m', lvl, r, base, []) <==> SameLookups(m, m', lvl)
  {
  }

  /** Setting the next page extends the patch. */
  lemma PatchNext(
    m: Ram, m': Ram, m'': Ram, lvl: Levels, lvl': Levels, r: nat, base: nat, ws: seq<Option<Word>>, o: Option<Word>)
    requires Patched(m, m', lvl, r, base, ws) && PageSet(m', m'', lvl', r, base + |ws|, o)
    requires forall s :: Root(lvl, s) ==> Root(lvl', s)
    ensures Patched(m, m'', lvl, r, base, ws + [o])
  {
  }

  lemma PatchThenSame(m: Ram, m': Ram, m'': Ram, lvl: Levels, lvl': Levels, r: nat, base: nat, ws: seq<Option<Word>>)
    requires Patched(m, m', lvl, r, base, ws) && SameLookups(m', m'', lvl')
    requires forall s :: Root(lvl, s) ==> Root(lvl', s)
    ensures Patched(m, m'', lvl, r, base, ws)
  {
  }

  ghost predicate AllMapped(m: Ram, r: nat, base: nat, n: nat) {
    forall q: nat :: base <= q < base + n ==> Lookup(m, r, q).Some?
  }

  ghost predicate AllEmpty(m: Ram, r: nat, base: nat, n: nat) {
    forall q: nat :: base <= q < base + n ==> Lookup(m, r, q).None?
  }

  function Nones(n: nat): (ws: seq<Option<Word>>)
    ensures |ws| == n
  {
    seq(n, _ => None)
  }

  /** The leaf words that mapping `n` pages from physical address `phys` on writes. */
  function MapWords(phys: Usize, n: nat, flags: Word): (ws: seq<Option<Word>>)
    ensures |ws| == n
  {
    seq(n, i requires 0 <= i < n => Leaf(SetWord((phys + i * PAGE_SIZE) % USIZE, flags)))
  }

  // ----- counting mapped user pages -----

  /** The lower-half pages mapped under root `r`. */
  ghost function UserPages(m: Ram, r: nat): set<nat> {
    set p: nat | p < USER_PAGES && Lookup(m, r, p).Some?
  }

  lemma SamePages(m: Ram, m': Ram, lvl: Levels, r: nat)
    requires SameLookups(m, m', lvl) && Root(lvl, r)
    ensures UserPages(m', r) == UserPages(m, r)
  {
  }

  /** Filling an empty run adds its pages. */
  lemma PagesAdded(m: Ram, m': Ram, lvl: Levels, r: nat, base: nat, ws: seq<Option<Word>>)
    requires Patched(m, m', lvl, r, base, ws) && Root(lvl, r) && base + |ws| <= USER_PAGES
    requires forall i :: 0 <= i < |ws| ==> ws[i].Some? && Lookup(m, r, base + i).None?
    ensures UserPages(m', r) == UserPages(m, r) + Range(base, |ws|)
    ensures |UserPages(m', r)| == |UserPages(m, r)| + |ws|
  {
    var u, u', g := UserPages(m, r), UserPages(m', r), Range(base, |ws|);
    forall p | p in g ensures p !in u && p in u' {
      assert Lookup(m, r, base + (p - base)).None?;
    }
    assert u' == u + g;
    RangeSize(base, |ws|);
  }

  /** Emptying a run removes its pages. */
  lemma PagesRemoved(m: Ram, m': Ram, lvl: Levels, r: nat, base: nat, n: nat)
    requires Patched(m, m', lvl, r, base, Nones(n)) && Root(lvl, r) && base + n <= USER_PAGES
    ensures UserPages(m', r) == UserPages(m, r) - Range(base, n)
    ensures |UserPages(m', r)| == |UserPages(m, r)| - |UserPages(m, r) * Range(base, n)|
    ensures |UserPages(m, r) * Range(base, n)| <= n
    ensures |UserPages(m, r) * Range(base, n)| == n <==> Range(base, n) <= UserPages(m, r)
  {
    var u, u', g := UserPages(m, r), UserPages(m', r), Range(base, n);
    assert u' == u - g;
    RangeSize(base, n);
    SplitSize(u, g);
  }

  lemma SplitSize(u: set<nat>, g: set<nat>)
    ensures |u - g| == |u| - |u * g| && |u * g| <= |g|
    ensures |u * g| == |g| <==> g <= u
  {
    assert u == (u - g) + u * g;
    assert g == (g - u) + u * g;
    assert g - u == {} <==> g <= u;
  }

  /** The same frames are roots, and frames that are no tables keep their contents. */
  ghost predicate Undisturbed(m: Ram, lvl: Levels, m': Ram, lvl': Levels) {
    && |m'| == |m| && (forall s :: Root(lvl, s) <==> Root(lvl', s))
    && forall f: nat :: f < |m| && f !in lvl' ==> m'[f] == m[f]
  }

  lemma GrowsUndisturbed(m: Ram, lvl: Levels, m': Ram, lvl': Levels, r: nat)
    requires Grows(m, lvl, m', lvl', r)
    ensures Undisturbed(m, lvl, m', lvl')
  {
  }

  lemma UndisturbedRefl(m: Ram, lvl: Levels)
    ensures Undisturbed(m, lvl, m, lvl)
  {
  }

  /** Patching the same run again replaces the patch. */
  lemma PatchOver(
    m: Ram, m': Ram, m'': Ram, lvl: Levels, lvl': Levels, r: nat, base: nat, ws: seq<Option<Word>>,
    vs: seq<Option<Word>>)
    requires Patched(m, m', lvl, r, base, ws) && Patched(m', m'', lvl', r, base, vs) && |ws| == |vs|
    requires forall s :: Root(lvl, s) ==> Root(lvl', s)
    ensures Patched(m, m'', lvl, r, base, vs)
  {
  }

  lemma EmptiedSame(m: Ram, m': Ram, lvl: Levels, r: nat, base: nat, n: nat)
    requires Patched(m, m', lvl, r, base, Nones(n)) && AllEmpty(m, r, base, n)
    ensures SameLookups(m, m', lvl)
  {
  }

  // ----- runs of pages anywhere in the address space -----

  /** The page of the `i`-th page address from `virt` on, wrapping at the top. */
  function PageNo(virt: Usize, i: nat): (p: nat)
    ensures p < PAGES
  {
    PageOf((virt + i * PAGE_SIZE) % USIZE)
  }

  lemma PageNoAt(virt: Usize, i: nat)
    ensures PageNo(virt, i) == PageOf((virt + i * PAGE_SIZE) % USIZE)
  {
  }

  lemma WrapAligned(a: Usize, i: nat)
    requires Aligned(a)
    ensures Aligned((a + i * PAGE_SIZE) % USIZE)
  {
  }

  const PAGE_NUMBERS: nat := 0x10_0000_0000_0000

  /** Wrapping at the top of the address space, page numbers stay consecutive. */
  lemma PageNoIs(virt: Usize, i: nat)
    requires Aligned(virt) && i < PAGE_NUMBERS
    ensures PageNo(virt, i) == (PageOf(virt) + i) % PAGES
    ensures Aligned((virt + i * PAGE_SIZE) % USIZE)
  {
    WrappedPage(virt / PAGE_SIZE, i);
  }

  lemma WrappedPage(a: nat, i: nat)
    requires a < PAGE_NUMBERS && i < PAGE_NUMBERS
    ensures (a * PAGE_SIZE + i * PAGE_SIZE) % USIZE == WrapAdd(a, i) * PAGE_SIZE
    ensures WrapAdd(a, i) % PAGES == (a % PAGES + i) % PAGES
  {
    WrapMod(a, i);
    var n := WrapAdd(a, i);
    assert a * PAGE_SIZE + i * PAGE_SIZE == n * PAGE_SIZE + (if a + i < PAGE_NUMBERS then 0 else USIZE);
  }

  function WrapAdd(a: nat, i: nat): (n: nat)
    requires a < PAGE_NUMBERS && i < PAGE_NUMBERS
    ensures n < PAGE_NUMBERS
  {
    if a + i < PAGE_NUMBERS then a + i else a + i - PAGE_NUMBERS
  }

  lemma WrapMod(a: nat, i: nat)
    requires a < PAGE_NUMBERS && i < PAGE_NUMBERS
    ensures WrapAdd(a, i) % PAGES == (a % PAGES + i) % PAGES
  {
  }

  /** The pages of one run are distinct. */
  lemma PageNoInjective(virt: Usize, i: nat, j: nat)
    requires Aligned(virt) && i < PAGES && j < PAGES
    ensures PageNo(virt, i) == PageNo(virt, j) <==> i == j
  {
    PageNoIs(virt, i);
    PageNoIs(virt, j);
    RingInjective(PageOf(virt), i, j);
  }

  lemma RingInjective(a: nat, i: nat, j: nat)
    requires a < PAGES && i < PAGES && j < PAGES
    ensures (a + i) % PAGES == (a + j) % PAGES <==> i == j
  {
  }

  /** Inside the lower half the pages of a run simply count up. */
  lemma LowPage(virt: Usize, i: nat)
    requires Aligned(virt) && PageOf(virt) + i < PAGES
    ensures PageNo(virt, i) == PageOf(virt) + i
  {
    PageNoIs(virt, i);
  }

  /** The pages in `ws` now translate as it says, under `r` and the roots that
      share them; no other translation differs. */
  ghost predicate Overlay(m: Ram, m': Ram, lvl: Levels, r: nat, ws: map<nat, Option<Word>>) {
    forall s: nat, q: nat :: Root(lvl, s) && q < PAGES ==>
      Lookup(m', s, q) == if q in ws && (s == r || Shares(m, r, s, q)) then ws[q] else Lookup(m, s, q)
  }

  lemma OverlayNone(m: Ram, lvl: Levels, r: nat)
    ensures Overlay(m, m, lvl, r, map[])
  {
  }

  lemma OverlayStep(
    m: Ram, lvl: Levels, m1: Ram, lvl1: Levels, m2: Ram, r: nat, ws: map<nat, Option<Word>>, p: nat, o: Option<Word>)
    requires WellFormed(m, lvl) && Root(lvl, r) && Grows(m, lvl, m1, lvl1, r)
    requires Overlay(m, m1, lvl, r, ws) && LookupSet(m1, m2, lvl1, r, p, o)
    ensures Overlay(m, m2, lvl, r, ws[p := o])
  {
    hide Lookup;
    forall s: nat, q: nat | Root(lvl, s) && q < PAGES
      ensures Lookup(m2, s, q) ==
        if q in ws[p := o] && (s == r || Shares(m, r, s, q)) then ws[p := o][q] else Lookup(m, s, q)
    {
      assert Root(lvl1, s);
      if s != r {
        SharesKept(m, lvl, m1, lvl1, r, s, p);
      }
    }
  }

  /** Two overlays in a row are one, in which the later one wins. */
  lemma OverlayThen(
    m: Ram, lvl: Levels, m1: Ram, lvl1: Levels, m2: Ram, r: nat, ws: map<nat, Option<Word>>, vs: map<nat, Option<Word>>)
    requires WellFormed(m, lvl) && Root(lvl, r) && Grows(m, lvl, m1, lvl1, r)
    requires Overlay(m, m1, lvl, r, ws) && Overlay(m1, m2, lvl1, r, vs)
    ensures Overlay(m, m2, lvl, r, ws + vs)
  {
    hide Lookup;
    forall s: nat, q: nat | Root(lvl, s) && q < PAGES
      ensures Lookup(m2, s, q) ==
        if q in ws + vs && (s == r || Shares(m, r, s, q)) then (ws + vs)[q] else Lookup(m, s, q)
    {
      assert Root(lvl1, s);
      if s != r {
        SharesKept(m, lvl, m1, lvl1, r, s, q);
      }
    }
  }

  lemma OverlaySame(m: Ram, lvl: Levels, m1: Ram, lvl1: Levels, m2: Ram, r: nat, ws: map<nat, Option<Word>>)
    requires Overlay(m, m1, lvl, r, ws) && SameLookups(m1, m2, lvl1) && forall s :: Root(lvl, s) ==> Root(lvl1, s)
    ensures Overlay(m, m2, lvl, r, ws)
  {
  }

  /** Emptying pages that were empty changes nothing. */
  lemma OverlayUndone(m: Ram, m': Ram, lvl: Levels, r: nat, ws: map<nat, Option<Word>>)
    requires Overlay(m, m', lvl, r, ws) && Root(lvl, r)
    requires forall p :: p in ws ==> ws[p] == None && Lookup(m, r, p) == None
    ensures SameLookups(m, m', lvl)
  {
    forall s: nat, q: nat | Root(lvl, s) && q < PAGES ensures Lookup(m', s, q) == Lookup(m, s, q) {
      if q in ws && Shares(m, r, s, q) {
        SharedLookup(m, r, s, q);
      }
    }
  }

  lemma OverlayAt(m: Ram, m': Ram, lvl: Levels, r: nat, ws: map<nat, Option<Word>>, p: nat)
    requires Overlay(m, m', lvl, r, ws) && Root(lvl, r) && p < PAGES
    ensures Lookup(m', r, p) == if p in ws then ws[p] else Lookup(m, r, p)
  {
  }

  lemma LookupIs(m: Ram, lvl: Levels, r: nat, p: nat)
    requires Root(lvl, r)
    ensures LookupSet(m, m, lvl, r, p, Lookup(m, r, p))
  {
    forall s: nat | Root(lvl, s) && Shares(m, r, s, p) ensures Lookup(m, s, p) == Lookup(m, r, p) {
      SharedLookup(m, r, s, p);
    }
  }

  /** A run of pages, all empty. */
  function Emptied(virt: Usize, n: nat): map<nat, Option<Word>> {
    if n == 0 then map[] else Emptied(virt, n - 1)[PageNo(virt, n - 1) := None]
  }

  lemma {:induction false} EmptiedAt(virt: Usize, n: nat)
    ensures forall p :: p in Emptied(virt, n) ==>
      Emptied(virt, n)[p] == None && exists i :: 0 <= i < n && p == PageNo(virt, i)
    ensures forall i :: 0 <= i < n ==> PageNo(virt, i) in Emptied(virt, n)
  {
    if n > 0 {
      EmptiedAt(virt, n - 1);
    }
  }

  /** The first `k` of these words, written to a run of pages. */
  function Written(virt: Usize, ws: seq<Option<Word>>, k: nat): map<nat, Option<Word>>
    requires k <= |ws|
  {
    if k == 0 then map[] else Written(virt, ws, k - 1)[PageNo(virt, k - 1) := ws[k - 1]]
  }

  lemma {:induction false} WrittenAt(virt: Usize, ws: seq<Option<Word>>, k: nat)
    requires k <= |ws| && k <= PAGES && Aligned(virt)
    ensures forall p :: p in Written(virt, ws, k) ==> exists i :: 0 <= i < k && p == PageNo(virt, i)
    ensures forall i :: 0 <= i < k ==>
      PageNo(virt, i) in Written(virt, ws, k) && Written(virt, ws, k)[PageNo(virt, i)] == ws[i]
  {
    if k > 0 {
      WrittenAt(virt, ws, k - 1);
      forall i | 0 <= i < k - 1 ensures PageNo(virt, i) != PageNo(virt, k - 1) {
        PageNoInjective(virt, i, k - 1);
      }
    }
  }

  lemma {:induction false} WrittenSome(virt: Usize, ws: seq<Option<Word>>, k: nat)
    requires k <= |ws| && forall i :: 0 <= i < |ws| ==> ws[i].Some?
    ensures forall p :: p in Written(virt, ws, k) ==> Written(virt, ws, k)[p].Some?
  {
    if k > 0 {
      WrittenSome(virt, ws, k - 1);
    }
  }

  /** The first `n` pages of the run at `virt` are not mapped. */
  ghost predicate Vacant(m: Ram, r: nat, virt: Usize, n: nat) {
    forall i :: 0 <= i < n ==> Lookup(m, r, PageNo(virt, i)) == None
  }

  /** The first `n` pages of the run at `virt` are mapped. */
  ghost predicate Full(m: Ram, r: nat, virt: Usize, n: nat) {
    forall i :: 0 <= i < n ==> Lookup(m, r, PageNo(virt, i)).Some?
  }

  /** In the lower half the pages of a run simply count up. */
  lemma EmptiedRun(virt: Usize, n: nat)
    requires Aligned(virt) && PageOf(virt) + n <= USER_PAGES
    ensures forall q :: q in Emptied(virt, n) <==> PageOf(virt) <= q < PageOf(virt) + n
    ensures forall q :: q in Emptied(virt, n) ==> Emptied(virt, n)[q] == None
  {
    EmptiedAt(virt, n);
    LowRun(virt, n);
    hide PageNo, Emptied;
    forall q | PageOf(virt) <= q < PageOf(virt) + n ensures q in Emptied(virt, n) {
      assert PageNo(virt, q - PageOf(virt)) == q;
    }
  }

  lemma {:induction false} WrittenRun(virt: Usize, ws: seq<Option<Word>>, k: nat)
    requires Aligned(virt) && k <= |ws| && PageOf(virt) + k <= USER_PAGES
    ensures forall q :: q in Written(virt, ws, k) <==> PageOf(virt) <= q < PageOf(virt) + k
    ensures forall q :: q in Written(virt, ws, k) ==> Written(virt, ws, k)[q] == ws[q - PageOf(virt)]
  {
    if k > 0 {
      WrittenRun(virt, ws, k - 1);
      LowPage(virt, k - 1);
    }
  }

  lemma LowRun(virt: Usize, n: nat)
    requires Aligned(virt) && PageOf(virt) + n <= USER_PAGES
    ensures forall i :: 0 <= i < n ==> PageNo(virt, i) == PageOf(virt) + i
  {
    forall i | 0 <= i < n ensures PageNo(virt, i) == PageOf(virt) + i {
      LowPage(virt, i);
    }
  }

  /** So a lower-half run that is emptied is a patch of its root. */
  lemma EmptiedPatch(m: Ram, m': Ram, lvl: Levels, r: nat, virt: Usize, n: nat)
    requires WellFormed(m, lvl) && Root(lvl, r) && Aligned(virt) && PageOf(virt) + n <= USER_PAGES
    requires Overlay(m, m', lvl, r, Emptied(virt, n))
    ensures Patched(m, m', lvl, r, PageOf(virt), Nones(n))
  {
    hide Lookup, Emptied;
    EmptiedRun(virt, n);
    forall s: nat, q: nat | Root(lvl, s) && q < PAGES
      ensures Lookup(m', s, q) == if s == r && PageOf(virt) <= q < PageOf(virt) + n then None else Lookup(m, s, q)
    {
      if q in Emptied(virt, n) { LowerHalfPrivate(m, lvl, r, s, q); }
    }
  }
}
