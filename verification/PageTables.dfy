/** The meaning of four-level page tables stored in raw frames, as values.

    `Levels` names the frames that are page tables and the level of each: 4 for
    a root (PML4), down to 1 for a table of leaf entries. Everything the kernel
    promises about translations rests on `WellFormed`: links go down one level,
    stay inside the named tables, forbid nothing to the pages below, and no table has two
    parents, except that roots may share what hangs below an entry of their upper halves. */
module PageTables {
  import opened Words

  const ENTRIES: nat := 512

  type Table = t: seq<Word> | |t| == ENTRIES witness seq(ENTRIES, _ => ZERO)
  type Ram = seq<Table>
  type Levels = map<nat, nat>

  function Blank(): Table { seq(ENTRIES, _ => ZERO) }

  function At(m: Ram, t: nat, i: nat): Word {
    if t < |m| && i < ENTRIES then m[t][i] else ZERO
  }

  function Poke(m: Ram, t: nat, i: nat, w: Word): (m': Ram)
    requires t < |m| && i < ENTRIES
    ensures |m'| == |m|
    ensures forall u, j :: At(m', u, j) == if u == t && j == i then w else At(m, u, j)
  {
    m[t := m[t][i := w]]
  }

  /** `split_indices`: the index of page `p` in the table of level `k`. */
  function Idx(p: nat, k: nat): (i: nat)
    requires 1 <= k <= 4
    ensures i < ENTRIES
  {
    if k == 4 then p / 0x800_0000 % 512
    else if k == 3 then p / 0x4_0000 % 512
    else if k == 2 then p / 512 % 512
    else p % 512
  }

  /** The four indices spell the page number in base 512. */
  lemma IdxDigits(p: nat)
    requires p < PAGES
    ensures p == ((Idx(p, 4) * 512 + Idx(p, 3)) * 512 + Idx(p, 2)) * 512 + Idx(p, 1)
  {
    var a := p / 512;
    var b := a / 512;
    assert b == p / 0x4_0000;
    assert b / 512 == p / 0x800_0000;
    assert p == a * 512 + Idx(p, 1) && a == b * 512 + Idx(p, 2) && b == b / 512 * 512 + Idx(p, 3);
    assert b / 512 < 512;
  }

  lemma IdxInjective(p: nat, q: nat)
    requires p < PAGES && q < PAGES
    requires forall k :: 1 <= k <= 4 ==> Idx(p, k) == Idx(q, k)
    ensures p == q
  {
    IdxDigits(p);
    IdxDigits(q);
  }

  lemma UpperHalf(p: nat)
    requires p < PAGES
    ensures Idx(p, 4) >= 256 <==> p >= USER_PAGES
  {
  }

  /** Entry `i` of interior table `t` is present and points at frame `c`. */
  predicate Link(m: Ram, lvl: Levels, t: nat, i: nat, c: nat) {
    t in lvl && lvl[t] >= 2 && i < ENTRIES && At(m, t, i).present && At(m, t, i).frame == c
  }

  ghost predicate WellFormed(m: Ram, lvl: Levels) {
    && (forall t :: t in lvl ==> t < |m| && 1 <= lvl[t] <= 4)
    && (forall t, i, c :: Link(m, lvl, t, i, c) ==> c in lvl && lvl[c] == lvl[t] - 1)
    && (forall t, i, c :: Link(m, lvl, t, i, c) ==> At(m, t, i).writable && !At(m, t, i).nx)
    && (forall t, i, u, j, c :: Link(m, lvl, t, i, c) && Link(m, lvl, u, j, c) ==>
          i == j && (t == u || (lvl[t] == 4 && i >= 256)))
  }

  predicate Root(lvl: Levels, r: nat) { r in lvl && lvl[r] == 4 }

  /** The table of level `k` on the walk from root `r` to page `p`. */
  function Tab(m: Ram, r: nat, p: nat, k: nat): Option<nat>
    requires 1 <= k <= 4
    decreases 4 - k
  {
    if k == 4 then Some(r)
    else
      match Tab(m, r, p, k + 1)
      case None => None
      case Some(t) =>
        var e := At(m, t, Idx(p, k + 1));
        if e.present then Some(e.frame) else None
  }

  function Leaf(w: Word): Option<Word> { if w.present then Some(w) else None }

  /** The translation of page `p` under root `r`: its leaf entry, if present. */
  function Lookup(m: Ram, r: nat, p: nat): Option<Word> {
    match Tab(m, r, p, 1)
    case None => None
    case Some(t) => Leaf(At(m, t, Idx(p, 1)))
  }

  /** Roots `r` and `s` reach page `p` through the same third-level table. */
  predicate Shares(m: Ram, r: nat, s: nat, p: nat) {
    Tab(m, r, p, 3).Some? && Tab(m, s, p, 3) == Tab(m, r, p, 3)
  }

  /** Every entry above the leaf of page `p` admits user-mode access. */
  ghost predicate OpenPath(m: Ram, r: nat, p: nat) {
    forall k :: 2 <= k <= 4 ==> Open(m, r, p, k)
  }

  predicate Open(m: Ram, r: nat, p: nat, k: nat)
    requires 1 <= k <= 4
  {
    Tab(m, r, p, k).Some?
    && var e := At(m, Tab(m, r, p, k).value, Idx(p, k)); e.present && e.user
  }

  // ----- walks in a well-formed forest -----

  lemma {:induction false} TabLevel(m: Ram, lvl: Levels, r: nat, p: nat, k: nat)
    requires WellFormed(m, lvl) && Root(lvl, r) && 1 <= k <= 4
    ensures var t := Tab(m, r, p, k); t.Some? ==> t.value in lvl && lvl[t.value] == k
    decreases 4 - k
  {
    if k < 4 && Tab(m, r, p, k).Some? {
      TabLevel(m, lvl, r, p, k + 1);
      assert Link(m, lvl, Tab(m, r, p, k + 1).value, Idx(p, k + 1), Tab(m, r, p, k).value);
    }
  }

  /** Two walks meet in a table only if they came the same way. */
  lemma {:induction false} TabInjective(m: Ram, lvl: Levels, r: nat, p: nat, s: nat, q: nat, k: nat)
    requires WellFormed(m, lvl) && Root(lvl, r) && Root(lvl, s) && 1 <= k <= 3
    requires Tab(m, r, p, k).Some? && Tab(m, r, p, k) == Tab(m, s, q, k)
    ensures forall j :: k < j <= 4 ==> Idx(p, j) == Idx(q, j)
    ensures Tab(m, r, p, 3).Some? && Tab(m, s, q, 3) == Tab(m, r, p, 3)
    ensures r == s || Idx(p, 4) >= 256
    decreases 4 - k
  {
    var t, u := Tab(m, r, p, k + 1), Tab(m, s, q, k + 1);
    TabLevel(m, lvl, r, p, k + 1);
    TabLevel(m, lvl, s, q, k + 1);
    var c := Tab(m, r, p, k).value;
    assert Link(m, lvl, t.value, Idx(p, k + 1), c) && Link(m, lvl, u.value, Idx(q, k + 1), c);
    if k < 3 {
      TabInjective(m, lvl, r, p, s, q, k + 1);
    }
  }

  /** Below a shared third-level table two roots translate alike. */
  lemma SharedLookup(m: Ram, r: nat, s: nat, p: nat)
    requires Tab(m, r, p, 3) == Tab(m, s, p, 3)
    ensures Lookup(m, r, p) == Lookup(m, s, p)
  {
    assert Tab(m, r, p, 2) == Tab(m, s, p, 2);
    assert Tab(m, r, p, 1) == Tab(m, s, p, 1);
  }

  /** In the lower half nothing is shared. */
  lemma LowerHalfPrivate(m: Ram, lvl: Levels, r: nat, s: nat, p: nat)
    requires WellFormed(m, lvl) && Root(lvl, r) && Root(lvl, s) && p < USER_PAGES
    ensures Shares(m, r, s, p) ==> r == s
  {
    UpperHalf(p);
    if Shares(m, r, s, p) {
      TabInjective(m, lvl, r, p, s, p, 3);
    }
  }

  // ----- writes that leave the links alone -----

  /** Interior entries keep their presence, their target and what they allow. */
  ghost predicate SameLinks(m: Ram, m': Ram, lvl: Levels) {
    && |m'| == |m|
    && forall t, i {:trigger At(m', t, i)} :: t in lvl && lvl[t] >= 2 ==>
         var e, e' := At(m, t, i), At(m', t, i);
         && e'.present == e.present && e'.writable == e.writable && e'.nx == e.nx
         && (e.present ==> e'.frame == e.frame)
  }

  lemma SameLinksKeepForm(m: Ram, m': Ram, lvl: Levels)
    requires WellFormed(m, lvl) && SameLinks(m, m', lvl)
    ensures WellFormed(m', lvl)
  {
    assert forall t, i, c :: Link(m', lvl, t, i, c) ==> Link(m, lvl, t, i, c);
  }

  lemma {:induction false} SameLinksSameTab(m: Ram, m': Ram, lvl: Levels, r: nat, p: nat, k: nat)
    requires WellFormed(m, lvl) && SameLinks(m, m', lvl) && Root(lvl, r) && 1 <= k <= 4
    ensures Tab(m', r, p, k) == Tab(m, r, p, k)
    decreases 4 - k
  {
    if k < 4 {
      SameLinksSameTab(m, m', lvl, r, p, k + 1);
      TabLevel(m, lvl, r, p, k + 1);
    }
  }

  /** Writes outside every table are invisible to every translation. */
  lemma DataWrite(m: Ram, m': Ram, lvl: Levels)
    requires WellFormed(m, lvl) && |m'| == |m|
    requires forall t :: t in lvl ==> m'[t] == m[t]
    ensures WellFormed(m', lvl)
    ensures forall r: nat, p: nat :: Root(lvl, r) ==> Lookup(m', r, p) == Lookup(m, r, p)
    ensures forall r: nat, p: nat :: Root(lvl, r) && OpenPath(m, r, p) ==> OpenPath(m', r, p)
  {
    assert SameLinks(m, m', lvl);
    SameLinksKeepForm(m, m', lvl);
    forall r: nat, p: nat | Root(lvl, r)
      ensures Lookup(m', r, p) == Lookup(m, r, p)
      ensures OpenPath(m, r, p) ==> OpenPath(m', r, p)
    {
      SameLinksSameTab(m, m', lvl, r, p, 1);
      TabLevel(m, lvl, r, p, 1);
      forall k | 2 <= k <= 4 && Open(m, r, p, k) ensures Open(m', r, p, k) {
        SameLinksSameTab(m, m', lvl, r, p, k);
        TabLevel(m, lvl, r, p, k);
      }
    }
  }

  /** Writing the leaf entry of one page changes the translation of that page
      alone, under the given root and those that share its table. */
  lemma LeafWrite(m: Ram, lvl: Levels, r: nat, p: nat, w: Word)
    requires WellFormed(m, lvl) && Root(lvl, r) && p < PAGES && Tab(m, r, p, 1).Some?
    requires Tab(m, r, p, 1).value < |m|
    ensures var m' := Poke(m, Tab(m, r, p, 1).value, Idx(p, 1), w);
      && WellFormed(m', lvl)
      && (forall s: nat, q: nat :: Root(lvl, s) && q < PAGES ==>
            Lookup(m', s, q) == if q == p && Shares(m, r, s, p) then Leaf(w) else Lookup(m, s, q))
  {
    var t := Tab(m, r, p, 1).value;
    var m' := Poke(m, t, Idx(p, 1), w);
    TabLevel(m, lvl, r, p, 1);
    assert SameLinks(m, m', lvl);
    SameLinksKeepForm(m, m', lvl);
    forall s: nat, q: nat | Root(lvl, s) && q < PAGES
      ensures Lookup(m', s, q) == if q == p && Shares(m, r, s, p) then Leaf(w) else Lookup(m, s, q)
    {
      SameLinksSameTab(m, m', lvl, s, q, 1);
      LeafWriteAt(m, lvl, r, p, s, q);
    }
  }

  /** A leaf write keeps every walk and every open path. */
  lemma LeafWriteWalks(m: Ram, lvl: Levels, t: nat, i: nat, w: Word)
    requires WellFormed(m, lvl) && t in lvl && lvl[t] == 1 && i < ENTRIES
    ensures t < |m|
    ensures var m' := Poke(m, t, i, w);
      && (forall s: nat, q: nat, k: nat :: Root(lvl, s) && 1 <= k <= 4 ==> Tab(m', s, q, k) == Tab(m, s, q, k))
      && (forall s: nat, q: nat, k: nat :: Root(lvl, s) && 2 <= k <= 4 ==> Open(m', s, q, k) == Open(m, s, q, k))
  {
    var m' := Poke(m, t, i, w);
    assert SameLinks(m, m', lvl);
    forall s: nat, q: nat, k: nat | Root(lvl, s) && 1 <= k <= 4
      ensures Tab(m', s, q, k) == Tab(m, s, q, k)
      ensures k >= 2 ==> Open(m', s, q, k) == Open(m, s, q, k)
    {
      SameLinksSameTab(m, m', lvl, s, q, k);
      TabLevel(m, lvl, s, q, k);
    }
  }

  /** The leaf slots of two pages coincide exactly when the pages do. */
  lemma LeafWriteAt(m: Ram, lvl: Levels, r: nat, p: nat, s: nat, q: nat)
    requires WellFormed(m, lvl) && Root(lvl, r) && Root(lvl, s) && p < PAGES && q < PAGES
    requires Tab(m, r, p, 1).Some?
    ensures (Tab(m, s, q, 1) == Tab(m, r, p, 1) && Idx(q, 1) == Idx(p, 1)) <==> (q == p && Shares(m, r, s, p))
  {
    if Tab(m, s, q, 1) == Tab(m, r, p, 1) && Idx(q, 1) == Idx(p, 1) {
      TabInjective(m, lvl, r, p, s, q, 1);
      IdxInjective(p, q);
    }
    if q == p && Shares(m, r, s, p) {
      assert Tab(m, r, p, 2) == Tab(m, s, p, 2);
      assert Tab(m, r, p, 1) == Tab(m, s, p, 1);
    }
  }

  /** Adding the user bit to an interior entry changes no translation. */
  lemma Promote(m: Ram, lvl: Levels, t: nat, i: nat)
    requires WellFormed(m, lvl) && t in lvl && lvl[t] >= 2 && i < ENTRIES
    ensures t < |m|
    ensures var e := At(m, t, i);
      var m' := Poke(m, t, i, e.(user := true));
      && WellFormed(m', lvl)
      && (forall s: nat, q: nat :: Root(lvl, s) ==> Lookup(m', s, q) == Lookup(m, s, q))
      && (forall s: nat, q: nat, k: nat :: Root(lvl, s) && 1 <= k <= 4 ==> Tab(m', s, q, k) == Tab(m, s, q, k))
      && (forall s: nat, q: nat, k: nat :: Root(lvl, s) && 1 <= k <= 4 && Open(m, s, q, k) ==> Open(m', s, q, k))
  {
    var e := At(m, t, i);
    var m' := Poke(m, t, i, e.(user := true));
    assert SameLinks(m, m', lvl);
    SameLinksKeepForm(m, m', lvl);
    forall s: nat, q: nat, k: nat | Root(lvl, s) && 1 <= k <= 4
      ensures Tab(m', s, q, k) == Tab(m, s, q, k)
      ensures Open(m, s, q, k) ==> Open(m', s, q, k)
    {
      SameLinksSameTab(m, m', lvl, s, q, k);
    }
    forall s: nat, q: nat | Root(lvl, s) ensures Lookup(m', s, q) == Lookup(m, s, q) {
      TabLevel(m, lvl, s, q, 1);
      assert Tab(m', s, q, 1) == Tab(m, s, q, 1);
    }
  }

  // ----- growing the forest -----

  function Grown(m: Ram, t: nat, i: nat, f: nat, w: Word): (m': Ram)
    requires t < |m| && i < ENTRIES && f < |m|
  {
    Poke(m[f := Blank()], t, i, w)
  }

  lemma GrowForm(m: Ram, lvl: Levels, t: nat, i: nat, f: nat, w: Word)
    requires WellFormed(m, lvl) && t in lvl && lvl[t] >= 2 && i < ENTRIES && !At(m, t, i).present
    requires f < |m| && f !in lvl && w.frame == f && w.writable && !w.nx
    ensures WellFormed(Grown(m, t, i, f, w), lvl[f := lvl[t] - 1])
  {
    var m', lvl' := Grown(m, t, i, f, w), lvl[f := lvl[t] - 1];
    assert forall j: nat :: !At(m', f, j).present;
    forall u: nat, j: nat, c: nat | Link(m', lvl', u, j, c)
      ensures (u == t && j == i && c == f) || (Link(m, lvl, u, j, c) && c != f)
    {
      assert u != f;
      if u != t || j != i {
        assert Link(m, lvl, u, j, c);
      }
    }
  }

  /** Linking a blank table under an empty entry extends walks by nothing but
      that table itself. */
  lemma {:induction false} GrowTab(m: Ram, lvl: Levels, t: nat, i: nat, f: nat, w: Word, r: nat, p: nat, k: nat)
    requires WellFormed(m, lvl) && t in lvl && lvl[t] >= 2 && i < ENTRIES && !At(m, t, i).present
    requires f < |m| && f !in lvl && w.frame == f
    requires Root(lvl, r) && 1 <= k <= 4
    ensures var m' := Grown(m, t, i, f, w);
      || Tab(m', r, p, k) == Tab(m, r, p, k)
      || (Tab(m, r, p, k).None? && Tab(m', r, p, k) == Some(f))
    decreases 4 - k
  {
    var m' := Grown(m, t, i, f, w);
    assert forall j :: At(m', f, j) == ZERO;
    if k < 4 {
      GrowTab(m, lvl, t, i, f, w, r, p, k + 1);
      TabLevel(m, lvl, r, p, k + 1);
    }
  }

  lemma GrowLookup(m: Ram, lvl: Levels, t: nat, i: nat, f: nat, w: Word)
    requires WellFormed(m, lvl) && t in lvl && lvl[t] >= 2 && i < ENTRIES && !At(m, t, i).present
    requires f < |m| && f !in lvl && w.frame == f
    ensures var m' := Grown(m, t, i, f, w);
      && (forall s: nat, q: nat :: Root(lvl, s) ==> Lookup(m', s, q) == Lookup(m, s, q))
      && (forall s: nat, q: nat, k: nat :: Root(lvl, s) && 1 <= k <= 4 && Tab(m, s, q, k).Some? ==>
           Tab(m', s, q, k) == Tab(m, s, q, k))
      && (forall s: nat, q: nat, k: nat :: Root(lvl, s) && 1 <= k <= 4 && Tab(m, s, q, k).None? ==>
           Tab(m', s, q, k) in {None, Some(f)})
      && (forall s: nat, q: nat, k: nat :: Root(lvl, s) && 1 <= k <= 4 && Open(m, s, q, k) ==> Open(m', s, q, k))
  {
    var m' := Grown(m, t, i, f, w);
    assert forall j :: At(m', f, j) == ZERO;
    forall s: nat, q: nat, k: nat | Root(lvl, s) && 1 <= k <= 4 && Tab(m, s, q, k).Some?
      ensures Tab(m', s, q, k) == Tab(m, s, q, k) && (Open(m, s, q, k) ==> Open(m', s, q, k))
    {
      GrowTab(m, lvl, t, i, f, w, s, q, k);
      TabLevel(m, lvl, s, q, k);
    }
    forall s: nat, q: nat, k: nat | Root(lvl, s) && 1 <= k <= 4 && Tab(m, s, q, k).None?
      ensures Tab(m', s, q, k) in {None, Some(f)}
    {
      GrowTab(m, lvl, t, i, f, w, s, q, k);
    }
    forall s: nat, q: nat | Root(lvl, s) ensures Lookup(m', s, q) == Lookup(m, s, q) {
      GrowTab(m, lvl, t, i, f, w, s, q, 1);
      TabLevel(m, lvl, s, q, 1);
    }
  }

  /** `clone_kernel_mappings`: lower half cleared, upper half copied. */
  function Cloned(src: Table): (t: Table)
  {
    seq(ENTRIES, i requires 0 <= i < ENTRIES => if i < 256 then ZERO else src[i])
  }

  /** A cloned root translates the upper half as its source does and nothing
      else; the roots that were there see no difference. */
  lemma CloneRoot(m: Ram, lvl: Levels, src: nat, d: nat)
    requires WellFormed(m, lvl) && Root(lvl, src) && d < |m| && d !in lvl
    ensures src < |m|
    ensures var m', lvl' := m[d := Cloned(m[src])], lvl[d := 4];
      && WellFormed(m', lvl')
      && (forall s: nat, q: nat :: Root(lvl, s) ==> Lookup(m', s, q) == Lookup(m, s, q))
      && (forall s: nat, q: nat :: Root(lvl, s) && OpenPath(m, s, q) ==> OpenPath(m', s, q))
      && (forall q: nat :: q < PAGES ==>
            && Lookup(m', d, q) == (if q < USER_PAGES then None else Lookup(m, src, q))
            && (q >= USER_PAGES && Tab(m, src, q, 3).Some? ==> Shares(m', src, d, q))
            && (OpenPath(m', d, q) <==> q >= USER_PAGES && OpenPath(m, src, q)))
  {
    var m1, lvl' := m[d := Cloned(m[src])], lvl[d := 4];
    DataWrite(m, m1, lvl);
    forall u: nat, j: nat, c: nat | Link(m1, lvl', u, j, c)
      ensures if u == d then j >= 256 && Link(m1, lvl, src, j, c) else Link(m1, lvl, u, j, c)
    {
      assert u == d ==> At(m1, d, j) == m1[d][j];
    }
    assert WellFormed(m1, lvl');
    forall q: nat | q < PAGES
      ensures Lookup(m1, d, q) == (if q < USER_PAGES then None else Lookup(m, src, q))
      ensures q >= USER_PAGES && Tab(m, src, q, 3).Some? ==> Shares(m1, src, d, q)
      ensures OpenPath(m1, d, q) <==> q >= USER_PAGES && OpenPath(m, src, q)
    {
      CloneWalk(m, m1, lvl, src, d, q);
    }
  }

  lemma CloneWalk(m: Ram, m1: Ram, lvl: Levels, src: nat, d: nat, q: nat)
    requires WellFormed(m, lvl) && Root(lvl, src) && d < |m| && d !in lvl && q < PAGES
    requires src < |m| && m1 == m[d := Cloned(m[src])]
    requires forall r: nat, p: nat :: Root(lvl, r) ==> Lookup(m1, r, p) == Lookup(m, r, p)
    ensures Lookup(m1, d, q) == (if q < USER_PAGES then None else Lookup(m, src, q))
    ensures q >= USER_PAGES && Tab(m, src, q, 3).Some? ==> Shares(m1, src, d, q)
    ensures OpenPath(m1, d, q) <==> q >= USER_PAGES && OpenPath(m, src, q)
  {
    UpperHalf(q);
    var i := Idx(q, 4);
    assert At(m1, d, i) == (if i < 256 then ZERO else At(m, src, i));
    assert Tab(m1, d, q, 3) == (if i < 256 then None else Tab(m, src, q, 3));
    assert SameLinks(m, m1, lvl);
    SameLinksSameTab(m, m1, lvl, src, q, 3);
    if i < 256 {
      assert Tab(m1, d, q, 2).None?;
      assert !Open(m1, d, q, 2);
    } else {
      SharedLookup(m1, src, d, q);
      forall k | 2 <= k <= 4 ensures Open(m, src, q, k) == Open(m1, d, q, k) {
        SameLinksSameTab(m, m1, lvl, src, q, k);
        TabLevel(m, lvl, src, q, k);
        assert k == 2 ==> Tab(m1, d, q, 2) == Tab(m1, src, q, 2);
      }
    }
  }

  /** Forgetting a root leaves the rest of the forest well formed. */
  lemma DropRoot(m: Ram, lvl: Levels, r: nat)
    requires WellFormed(m, lvl) && Root(lvl, r)
    ensures WellFormed(m, lvl - {r})
  {
    var lvl' := lvl - {r};
    forall t: nat, i: nat, c: nat | Link(m, lvl', t, i, c)
      ensures c in lvl' && lvl'[c] == lvl'[t] - 1 && At(m, t, i).writable && !At(m, t, i).nx
    {
      assert Link(m, lvl, t, i, c);
    }
    forall t: nat, i: nat, u: nat, j: nat, c: nat | Link(m, lvl', t, i, c) && Link(m, lvl', u, j, c)
      ensures i == j && (t == u || (lvl'[t] == 4 && i >= 256))
    {
      assert Link(m, lvl, t, i, c) && Link(m, lvl, u, j, c);
    }
  }

  // ----- what an operation on the forest may do -----

  /** Tables are only added, never as roots, each in a frame that held no table;
      walks and open paths stay, and reach old tables only the old way; roots other
      than `r`, and frames that are no tables, keep their contents. */
  ghost predicate Grows(m: Ram, lvl: Levels, m': Ram, lvl': Levels, r: nat) {
    && |m'| == |m|
    && (forall t :: t in lvl ==> t in lvl' && lvl'[t] == lvl[t])
    && (forall t :: Root(lvl', t) ==> Root(lvl, t))
    && (forall s: nat, q: nat, k: nat :: Root(lvl, s) && 1 <= k <= 4 && Tab(m, s, q, k).Some? ==>
          Tab(m', s, q, k) == Tab(m, s, q, k))
    && (forall s: nat, q: nat, k: nat :: Root(lvl, s) && 1 <= k <= 4 && Tab(m', s, q, k).Some? ==>
          Tab(m', s, q, k).value in lvl ==> Tab(m, s, q, k) == Tab(m', s, q, k))
    && (forall s: nat, q: nat, k: nat :: Root(lvl, s) && 2 <= k <= 4 && Open(m, s, q, k) ==> Open(m', s, q, k))
    && (forall f: nat :: f < |m| && (f !in lvl' || (Root(lvl, f) && f != r)) ==> m'[f] == m[f])
  }

  /** No translation of any root differs. */
  ghost predicate SameLookups(m: Ram, m': Ram, lvl: Levels) {
    forall s: nat, q: nat :: Root(lvl, s) && q < PAGES ==> Lookup(m', s, q) == Lookup(m, s, q)
  }

  lemma SameRefl(m: Ram, lvl: Levels)
    ensures SameLookups(m, m, lvl)
  {
  }

  lemma SameTransitive(m: Ram, m': Ram, m'': Ram, lvl: Levels)
    requires SameLookups(m, m', lvl) && SameLookups(m', m'', lvl)
    ensures SameLookups(m, m'', lvl)
  {
  }

  /** The translation of page `p` under `r`, and under the roots sharing its
      table, is now `o`; no other translation differs. */
  ghost predicate LookupSet(m: Ram, m': Ram, lvl: Levels, r: nat, p: nat, o: Option<Word>) {
    forall s: nat, q: nat :: Root(lvl, s) && q < PAGES ==>
      Lookup(m', s, q) == if q == p && (s == r || Shares(m, r, s, p)) then o else Lookup(m, s, q)
  }

  lemma GrowsTransitive(m: Ram, lvl: Levels, m': Ram, lvl': Levels, m'': Ram, lvl'': Levels, r: nat)
    requires Grows(m, lvl, m', lvl', r) && Grows(m', lvl', m'', lvl'', r)
    ensures Grows(m, lvl, m'', lvl'', r)
    ensures SameLookups(m, m', lvl) && SameLookups(m', m'', lvl') ==> SameLookups(m, m'', lvl)
  {
    assert forall s :: Root(lvl, s) ==> Root(lvl', s);
    assert forall f: nat :: f !in lvl'' ==> f !in lvl';
  }

  /** How many tables are missing on the walk to page `p`. */
  function Missing(m: Ram, r: nat, p: nat): nat {
    if Tab(m, r, p, 3).None? then 3
    else if Tab(m, r, p, 2).None? then 2
    else if Tab(m, r, p, 1).None? then 1 else 0
  }

  /** User pages of the lower half are reachable from user mode: every level
      above them is open. (Roots hold private copies of their upper top-level
      entries, so opening one does not open the others.) */
  ghost predicate UserReach(m: Ram, lvl: Levels) {
    forall s: nat, q: nat :: Root(lvl, s) && q < USER_PAGES && Lookup(m, s, q).Some? && Lookup(m, s, q).value.user ==>
      OpenPath(m, s, q)
  }

  lemma ReachKept(m: Ram, lvl: Levels, m': Ram, lvl': Levels, r: nat)
    requires UserReach(m, lvl) && Grows(m, lvl, m', lvl', r) && SameLookups(m, m', lvl)
    ensures UserReach(m', lvl')
  {
    forall s: nat, q: nat | Root(lvl', s) && q < USER_PAGES && Lookup(m', s, q).Some? && Lookup(m', s, q).value.user
      ensures OpenPath(m', s, q)
    {
      assert OpenPath(m, s, q);
    }
  }

  /** The entry of level `k` on the walk to page `p`. */
  function EntryAt(m: Ram, r: nat, p: nat, k: nat): Word
    requires 1 <= k <= 4 && Tab(m, r, p, k).Some?
  {
    At(m, Tab(m, r, p, k).value, Idx(p, k))
  }

  /** The processor lets an access through when all four entries of the walk do: section
      4.6 of the Intel SDM, Volume 3A. */
  ghost predicate Admits(m: Ram, r: nat, p: nat, user: bool, write: bool, execute: bool) {
    forall k :: 1 <= k <= 4 ==>
      && Tab(m, r, p, k).Some? && EntryAt(m, r, p, k).present
      && (user ==> EntryAt(m, r, p, k).user)
      && (write ==> EntryAt(m, r, p, k).writable)
      && (execute ==> !EntryAt(m, r, p, k).nx)
  }

  /** What a page allows is what its leaf entry says, and for user mode too in the lower
      half: the tables above take nothing away. */
  lemma AccessIsLeaf(m: Ram, lvl: Levels, r: nat, p: nat, user: bool, write: bool, execute: bool)
    requires WellFormed(m, lvl) && UserReach(m, lvl) && Root(lvl, r) && p < PAGES && (user ==> p < USER_PAGES)
    ensures Admits(m, r, p, user, write, execute) <==>
      var o := Lookup(m, r, p);
      o.Some? && (user ==> o.value.user) && (write ==> o.value.writable) && (execute ==> !o.value.nx)
  {
    MissingMeaning(m, r, p);
    if Lookup(m, r, p).Some? {
      forall k | 2 <= k <= 4
        ensures EntryAt(m, r, p, k).present && EntryAt(m, r, p, k).writable && !EntryAt(m, r, p, k).nx
      {
        TabLevel(m, lvl, r, p, k);
        assert Tab(m, r, p, k - 1).Some?;
        assert Link(m, lvl, Tab(m, r, p, k).value, Idx(p, k), Tab(m, r, p, k - 1).value);
      }
      assert Leaf(EntryAt(m, r, p, 1)) == Lookup(m, r, p);
      if user && Lookup(m, r, p).value.user {
        assert OpenPath(m, r, p);
        assert Open(m, r, p, 2) && Open(m, r, p, 3) && Open(m, r, p, 4);
      }
    }
    if Admits(m, r, p, user, write, execute) {
      assert Tab(m, r, p, 1).Some? && EntryAt(m, r, p, 1).present;
    }
  }

  /** Promotion of an interior entry, as a step of the forest. */
  lemma PromoteStep(m: Ram, lvl: Levels, t: nat, i: nat, r: nat)
    requires WellFormed(m, lvl) && UserReach(m, lvl) && t in lvl && lvl[t] >= 2 && i < ENTRIES
    requires t == r || lvl[t] < 4
    ensures t < |m|
    ensures var e := At(m, t, i);
      var m' := Poke(m, t, i, e.(user := true));
      WellFormed(m', lvl) && UserReach(m', lvl) && Grows(m, lvl, m', lvl, r) && SameLookups(m, m', lvl)
  {
    Promote(m, lvl, t, i);
    var e := At(m, t, i);
    var m' := Poke(m, t, i, e.(user := true));
    assert forall f: nat :: f < |m| && f != t ==> m'[f] == m[f];
    ReachKept(m, lvl, m', lvl, r);
  }

  /** Linking a fresh blank table, as a step of the forest. */
  lemma GrowStep(m: Ram, lvl: Levels, t: nat, i: nat, f: nat, w: Word, r: nat)
    requires WellFormed(m, lvl) && UserReach(m, lvl)
    requires t in lvl && lvl[t] >= 2 && i < ENTRIES && !At(m, t, i).present
    requires f < |m| && f !in lvl && w.frame == f && w.writable && !w.nx && (t == r || lvl[t] < 4)
    ensures var m', lvl' := Grown(m, t, i, f, w), lvl[f := lvl[t] - 1];
      && WellFormed(m', lvl') && UserReach(m', lvl') && Grows(m, lvl, m', lvl', r) && SameLookups(m, m', lvl)
      && m'[f] == Blank()
  {
    GrowForm(m, lvl, t, i, f, w);
    GrowLookup(m, lvl, t, i, f, w);
    var m', lvl' := Grown(m, t, i, f, w), lvl[f := lvl[t] - 1];
    assert forall g: nat :: g < |m| && g != t && g != f ==> m'[g] == m[g];
    ReachKept(m, lvl, m', lvl', r);
  }

  /** Writing a leaf entry, as a step of the forest. */
  lemma LeafStep(m: Ram, lvl: Levels, r: nat, p: nat, w: Word)
    requires WellFormed(m, lvl) && Root(lvl, r) && p < PAGES && Tab(m, r, p, 1).Some?
    ensures Tab(m, r, p, 1).value < |m|
    ensures var m' := Poke(m, Tab(m, r, p, 1).value, Idx(p, 1), w);
      WellFormed(m', lvl) && Grows(m, lvl, m', lvl, r) && LookupSet(m, m', lvl, r, p, Leaf(w))
  {
    TabLevel(m, lvl, r, p, 1);
    var t := Tab(m, r, p, 1).value;
    var m' := Poke(m, t, Idx(p, 1), w);
    LeafWrite(m, lvl, r, p, w);
    LeafWriteWalks(m, lvl, t, Idx(p, 1), w);
    assert forall f: nat :: f < |m| && f != t ==> m'[f] == m[f];
    MissingMeaning(m, r, p);
  }

  lemma LeafReach(m: Ram, lvl: Levels, m': Ram, r: nat, p: nat, o: Option<Word>)
    requires WellFormed(m, lvl) && UserReach(m, lvl) && Root(lvl, r) && p < PAGES
    requires Grows(m, lvl, m', lvl, r) && LookupSet(m, m', lvl, r, p, o)
    requires o.Some? && o.value.user ==> OpenPath(m, r, p)
    ensures UserReach(m', lvl)
  {
    forall s: nat, q: nat | Root(lvl, s) && q < USER_PAGES && Lookup(m', s, q).Some? && Lookup(m', s, q).value.user
      ensures OpenPath(m', s, q)
    {
      LowerHalfPrivate(m, lvl, r, s, q);
      assert OpenPath(m, s, q);
    }
  }

  lemma MissingKept(m: Ram, m': Ram, lvl: Levels, r: nat, p: nat)
    requires WellFormed(m, lvl) && SameLinks(m, m', lvl) && Root(lvl, r)
    ensures Missing(m', r, p) == Missing(m, r, p)
  {
    SameLinksSameTab(m, m', lvl, r, p, 3);
    SameLinksSameTab(m, m', lvl, r, p, 2);
    SameLinksSameTab(m, m', lvl, r, p, 1);
  }

  /** Filling the first gap of a walk with a blank table leaves one gap fewer. */
  lemma MissingGrown(m: Ram, m': Ram, r: nat, p: nat, k: nat, c: nat)
    requires 2 <= k <= 4 && Tab(m, r, p, k).Some? && Tab(m', r, p, k).Some?
    requires Tab(m, r, p, k - 1).None? && Tab(m', r, p, k - 1) == Some(c)
    requires forall i :: !At(m', c, i).present
    ensures Missing(m, r, p) == k - 1 && Missing(m', r, p) == k - 2
  {
    if k == 4 {
      assert Tab(m', r, p, 2).None?;
    } else if k == 3 {
      assert Tab(m, r, p, 3).Some? && Tab(m', r, p, 3).Some?;
      assert Tab(m', r, p, 1).None?;
    } else {
      assert Tab(m, r, p, 2).Some? && Tab(m', r, p, 2).Some?;
      assert Tab(m, r, p, 3).Some? && Tab(m', r, p, 3).Some?;
    }
  }

  /** Growth under `r` makes nobody share a page with `r` who did not before. */
  lemma SharesKept(m: Ram, lvl: Levels, m': Ram, lvl': Levels, r: nat, s: nat, p: nat)
    requires WellFormed(m, lvl) && Grows(m, lvl, m', lvl', r) && Root(lvl, r) && Root(lvl, s) && s != r
    ensures Shares(m', r, s, p) <==> Shares(m, r, s, p)
  {
    assert Tab(m', s, p, 3) == Tab(m, s, p, 3);
    TabLevel(m, lvl, s, p, 3);
  }

  lemma SetAfterGrow(m: Ram, lvl: Levels, m': Ram, lvl': Levels, m'': Ram, r: nat, p: nat, o: Option<Word>)
    requires WellFormed(m, lvl) && Root(lvl, r)
    requires Grows(m, lvl, m', lvl', r) && SameLookups(m, m', lvl)
    requires Grows(m', lvl', m'', lvl', r) && LookupSet(m', m'', lvl', r, p, o)
    ensures Grows(m, lvl, m'', lvl', r) && LookupSet(m, m'', lvl, r, p, o)
  {
    GrowsTransitive(m, lvl, m', lvl', m'', lvl', r);
    forall s: nat, q: nat | Root(lvl, s) && q < PAGES
      ensures Lookup(m'', s, q) == if q == p && (s == r || Shares(m, r, s, p)) then o else Lookup(m, s, q)
    {
      assert Root(lvl', s);
      if s != r {
        SharesKept(m, lvl, m', lvl', r, s, p);
      }
    }
  }

  /** Unmapping undoes mapping: every translation of every root is back. */
  lemma MapUnmap(m: Ram, lvl: Levels, m': Ram, lvl': Levels, m'': Ram, r: nat, p: nat, w: Word)
    requires WellFormed(m, lvl) && Root(lvl, r) && p < PAGES && Lookup(m, r, p) == None
    requires Grows(m, lvl, m', lvl', r) && LookupSet(m, m', lvl, r, p, Some(w))
    requires Grows(m', lvl', m'', lvl', r) && LookupSet(m', m'', lvl', r, p, None)
    ensures SameLookups(m, m'', lvl)
  {
    forall s: nat, q: nat | Root(lvl, s) && q < PAGES ensures Lookup(m'', s, q) == Lookup(m, s, q) {
      assert Root(lvl', s);
      if s != r {
        SharesKept(m, lvl, m', lvl', r, s, p);
        if Shares(m, r, s, p) {
          SharedLookup(m, r, s, p);
        }
      }
    }
  }

  lemma GrowsRefl(m: Ram, lvl: Levels, r: nat)
    ensures Grows(m, lvl, m, lvl, r) && SameLookups(m, m, lvl)
  {
  }

  /** The new tables are exactly the frames that ceased to be free. */
  ghost predicate Paid(lvl: Levels, free: set<nat>, lvl': Levels, free': set<nat>) {
    free' <= free && lvl'.Keys == lvl.Keys + (free - free')
  }

  lemma PaidTransitive(lvl: Levels, f: set<nat>, lvl': Levels, f': set<nat>, lvl'': Levels, f'': set<nat>)
    requires Paid(lvl, f, lvl', f') && Paid(lvl', f', lvl'', f'')
    ensures Paid(lvl, f, lvl'', f'')
  {
    assert f - f'' == (f - f') + (f' - f'');
  }

  lemma MissingMeaning(m: Ram, r: nat, p: nat)
    ensures Missing(m, r, p) == 0 <==> Tab(m, r, p, 1).Some?
    ensures Tab(m, r, p, 1).Some? ==> Tab(m, r, p, 2).Some?
    ensures Tab(m, r, p, 2).Some? ==> Tab(m, r, p, 3).Some?
  {
  }

  lemma CloneReach(m: Ram, lvl: Levels, src: nat, d: nat)
    requires WellFormed(m, lvl) && UserReach(m, lvl) && Root(lvl, src) && d < |m| && d !in lvl
    ensures src < |m| && UserReach(m[d := Cloned(m[src])], lvl[d := 4])
  {
    CloneRoot(m, lvl, src, d);
  }

  /** Clearing a frame that is no table changes nothing that matters here. */
  lemma ScrubFrame(m: Ram, lvl: Levels, d: nat)
    requires WellFormed(m, lvl) && UserReach(m, lvl) && d < |m| && d !in lvl
    ensures var m' := m[d := Blank()]; WellFormed(m', lvl) && UserReach(m', lvl) && SameLookups(m, m', lvl)
  {
    DataWrite(m, m[d := Blank()], lvl);
  }

  lemma GrowsRoots(m: Ram, lvl: Levels, m': Ram, lvl': Levels, r: nat)
    requires Grows(m, lvl, m', lvl', r)
    ensures forall s :: Root(lvl, s) ==> Root(lvl', s)
  {
  }
}
