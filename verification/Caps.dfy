/** Capabilities (kernel/src/cap.rs and the capability half of kernel/src/thread.rs):
    a global derivation forest, one table per thread, and the audit log. */
module Caps {
  import opened Words

  // ----- permissions -----

  /** A `u32` of permission bits as the set of bits that are one: `&` is
      intersection and `& !` is difference. */
  type Perms = set<nat>

  const GRANT: Perms := {3}

  /** `contains`: `self & other == other`. */
  predicate Contains(p: Perms, q: Perms) { p * q == q }

  /** `is_subset_of`: `self & !other == 0`. */
  predicate SubsetOf(p: Perms, q: Perms) { p - q == {} }

  /** The kernel's two permission tests are inclusion, read both ways. */
  lemma ContainsIsSubset(p: Perms, q: Perms)
    ensures Contains(p, q) <==> q <= p
    ensures SubsetOf(q, p) <==> q <= p
  {
    assert q == p * q + (q - p);
  }

  // ----- capabilities -----

  datatype Resource =
    | Thread(thread: nat)
    | MemoryRegion(virt: nat, phys: nat, size: nat)
    | IpcPort(port: nat)
    | Irq(irq: nat)
    | Device(bdf: nat)
    | DmaBuffer(phys: nat, size: nat)
    | SharedMemoryRegion(region: nat)

  datatype Capability = Capability(
    handle: nat, resource: Resource, perms: Perms, owner: nat, parent: Option<nat>, children: seq<nat>)

  datatype CapError = NotFound | PermissionDenied | InvalidHandle | AlreadyExists | WrongResourceType | NotOwner

  datatype Result<+T> = Ok(value: T) | Err(error: CapError)

  type Registry = map<nat, Capability>

  type Tables = map<nat, Registry>

  // ----- the forest -----

  /** Handles name themselves, child lists point to younger handles without
      repetition, and a live child knows the parent that lists it. Removing
      entries cannot break this. */
  ghost predicate Downward(caps: Registry, next: nat) {
    && (forall h :: h in caps ==> caps[h].handle == h && h < next)
    && (forall h, i :: h in caps && 0 <= i < |caps[h].children| ==> Listed(caps, next, h, caps[h].children[i]))
    && (forall h, i, j :: h in caps && 0 <= i < j < |caps[h].children| ==> caps[h].children[i] != caps[h].children[j])
  }

  ghost predicate Listed(caps: Registry, next: nat, h: nat, c: nat) {
    h < c < next && (c in caps ==> caps[c].parent == Some(h))
  }

  /** Every live derived capability has a live parent that lists it, with the same
      resource and at least its permissions. */
  ghost predicate Upward(caps: Registry) {
    forall c :: c in caps && caps[c].parent.Some? ==> Derived(caps, caps[c].parent.value, c)
  }

  ghost predicate Derived(caps: Registry, p: nat, c: nat)
    requires c in caps
  {
    && p < c && p in caps && c in caps[p].children
    && caps[c].resource == caps[p].resource && caps[c].perms <= caps[p].perms
  }

  ghost predicate Forest(caps: Registry, next: nat) { Downward(caps, next) && Upward(caps) }

  /** `x` is `a` or descends from it along parent links. */
  predicate Desc(caps: Registry, a: nat, x: nat)
    decreases x
  {
    x == a || (x in caps && caps[x].parent.Some? && caps[x].parent.value < x && Desc(caps, a, caps[x].parent.value))
  }

  lemma {:induction false} DescOrder(caps: Registry, a: nat, x: nat)
    requires Desc(caps, a, x)
    ensures a <= x
    decreases x
  {
    if x != a {
      DescOrder(caps, a, caps[x].parent.value);
    }
  }

  /** Two ancestors of one capability lie on one line. */
  lemma {:induction false} DescLine(caps: Registry, a: nat, b: nat, x: nat)
    requires Desc(caps, a, x) && Desc(caps, b, x) && a <= b
    ensures Desc(caps, a, b)
    decreases x
  {
    DescOrder(caps, b, x);
    if x != b {
      DescOrder(caps, b, caps[x].parent.value);
      DescLine(caps, a, b, caps[x].parent.value);
    }
  }

  /** Permissions never grow along a derivation, and the resource never changes. */
  lemma {:induction false} NoAmplification(caps: Registry, next: nat, a: nat, x: nat)
    requires Forest(caps, next) && a in caps && x in caps && Desc(caps, a, x)
    ensures caps[x].resource == caps[a].resource && caps[x].perms <= caps[a].perms
    decreases x
  {
    if x != a {
      var p := caps[x].parent.value;
      assert Derived(caps, p, x);
      NoAmplification(caps, next, a, p);
    }
  }

  // ----- what revoking a capability visits -----

  /** `h` and its live descendants in pre-order. */
  function PreOrder(caps: Registry, h: nat, next: nat): seq<nat>
    requires h in caps
    decreases if h < next then next - h else 0, 1, 0
  {
    [h] + PreKids(caps, h, caps[h].children, next)
  }

  function PreKids(caps: Registry, h: nat, kids: seq<nat>, next: nat): seq<nat>
    decreases if h < next then next - h else 0, 0, |kids|
  {
    if kids == [] then []
    else PreKids(caps, h, kids[..|kids| - 1], next) + PreKid(caps, h, kids[|kids| - 1], next)
  }

  function PreKid(caps: Registry, h: nat, c: nat, next: nat): seq<nat>
    decreases if h < next then next - h else 0, 0, 0
  {
    if c in caps && h < c < next then PreOrder(caps, c, next) else []
  }

  predicate NoDup(s: seq<nat>) { forall i, j :: 0 <= i < j < |s| ==> s[i] != s[j] }

  function Elems(s: seq<nat>): set<nat> { set x | x in s }

  // ----- properties of the visit -----

  /** Whatever is visited is live and descends from the start. */
  lemma {:induction false} VisitedDescend(caps: Registry, h: nat, next: nat, x: nat)
    requires Downward(caps, next) && h in caps && x in PreOrder(caps, h, next)
    ensures x in caps && Desc(caps, h, x)
    decreases if h < next then next - h else 0, 1, 0
  {
    if x != h {
      assert caps[h].children[..|caps[h].children|] == caps[h].children;
      KidsDescend(caps, h, |caps[h].children|, next, x);
    }
  }

  lemma {:induction false} KidsDescend(caps: Registry, h: nat, n: nat, next: nat, x: nat)
    requires Downward(caps, next) && h in caps && n <= |caps[h].children|
    requires x in PreKids(caps, h, caps[h].children[..n], next)
    ensures x in caps && Desc(caps, h, x)
    ensures exists i :: 0 <= i < n && caps[h].children[i] in caps && Desc(caps, caps[h].children[i], x)
    decreases if h < next then next - h else 0, 0, n
  {
    var kids := caps[h].children;
    assert n > 0 && kids[..n][..n - 1] == kids[..n - 1] && kids[..n][n - 1] == kids[n - 1];
    if x in PreKids(caps, h, kids[..n - 1], next) {
      KidsDescend(caps, h, n - 1, next, x);
    } else {
      var c := kids[n - 1];
      VisitedDescend(caps, c, next, x);
      assert Listed(caps, next, h, c);
      DescJoin(caps, h, c, x);
    }
  }

  lemma {:induction false} DescJoin(caps: Registry, a: nat, b: nat, x: nat)
    requires Desc(caps, a, b) && Desc(caps, b, x)
    ensures Desc(caps, a, x)
    decreases x
  {
    if x != b {
      DescJoin(caps, a, b, caps[x].parent.value);
    }
  }

  /** Subtrees of different children of one capability do not meet. */
  lemma SiblingsApart(caps: Registry, next: nat, h: nat, c: nat, d: nat, x: nat)
    requires Downward(caps, next) && h < c && h < d && c in caps && d in caps
    requires caps[c].parent == Some(h) && caps[d].parent == Some(h) && Desc(caps, c, x) && Desc(caps, d, x)
    ensures c == d
  {
    if c < d {
      DescLine(caps, c, d, x);
      DescOrder(caps, c, h);
    } else if d < c {
      DescLine(caps, d, c, x);
      DescOrder(caps, d, h);
    }
  }

  /** What the first `n` children's subtrees contain does not reach the next child. */
  lemma NextKidApart(caps: Registry, h: nat, n: nat, next: nat, x: nat)
    requires Downward(caps, next) && h in caps && n < |caps[h].children|
    requires x in PreKids(caps, h, caps[h].children[..n], next)
    ensures var c := caps[h].children[n]; !Desc(caps, c, x) || c !in caps
    ensures x != h && x != caps[h].children[n]
  {
    var kids := caps[h].children;
    KidsDescend(caps, h, n, next, x);
    var i :| 0 <= i < n && kids[i] in caps && Desc(caps, kids[i], x);
    assert Listed(caps, next, h, kids[i]) && Listed(caps, next, h, kids[n]);
    DescOrder(caps, kids[i], x);
    if kids[n] in caps && Desc(caps, kids[n], x) {
      SiblingsApart(caps, next, h, kids[i], kids[n], x);
    }
  }

  lemma NoDupJoin(s: seq<nat>, t: seq<nat>)
    requires NoDup(s) && NoDup(t) && forall x :: x in t ==> x !in s
    ensures NoDup(s + t)
  {
    forall i, j | 0 <= i < j < |s + t| ensures (s + t)[i] != (s + t)[j] {
      if i < |s| <= j {
        assert t[j - |s|] in t && s[i] in s;
      }
    }
  }

  lemma {:induction false} VisitNoDup(caps: Registry, h: nat, next: nat)
    requires Downward(caps, next) && h in caps
    ensures NoDup(PreOrder(caps, h, next))
    decreases if h < next then next - h else 0, 1, 0
  {
    KidsNoDup(caps, h, |caps[h].children|, next);
    assert caps[h].children[..|caps[h].children|] == caps[h].children;
  }

  lemma {:induction false} KidsNoDup(caps: Registry, h: nat, n: nat, next: nat)
    requires Downward(caps, next) && h in caps && n <= |caps[h].children|
    ensures NoDup(PreKids(caps, h, caps[h].children[..n], next)) && h !in PreKids(caps, h, caps[h].children[..n], next)
    decreases if h < next then next - h else 0, 0, n
  {
    if n > 0 {
      var kids := caps[h].children;
      assert kids[..n][..n - 1] == kids[..n - 1] && kids[..n][n - 1] == kids[n - 1];
      KidsNoDup(caps, h, n - 1, next);
      var c := kids[n - 1];
      if c in caps && h < c < next {
        VisitNoDup(caps, c, next);
        forall x | x in PreOrder(caps, c, next) ensures x != h && x !in PreKids(caps, h, kids[..n - 1], next) {
          VisitedDescend(caps, c, next, x);
          DescOrder(caps, c, x);
          if x in PreKids(caps, h, kids[..n - 1], next) {
            NextKidApart(caps, h, n - 1, next, x);
          }
        }
        NoDupJoin(PreKids(caps, h, kids[..n - 1], next), PreOrder(caps, c, next));
      }
    }
  }

  /** Removing capabilities the visit does not reach does not change it. */
  lemma {:induction false} VisitStable(caps: Registry, gone: set<nat>, h: nat, next: nat)
    requires h in caps && h !in gone && forall x :: x in PreOrder(caps, h, next) ==> x !in gone
    ensures PreOrder(caps - gone, h, next) == PreOrder(caps, h, next)
    decreases if h < next then next - h else 0, 1, 0
  {
    KidsStable(caps, gone, h, caps[h].children, next);
  }

  lemma {:induction false} KidsStable(caps: Registry, gone: set<nat>, h: nat, kids: seq<nat>, next: nat)
    requires forall x :: x in PreKids(caps, h, kids, next) ==> x !in gone
    ensures PreKids(caps - gone, h, kids, next) == PreKids(caps, h, kids, next)
    decreases if h < next then next - h else 0, 0, |kids|
  {
    if kids != [] {
      var c := kids[|kids| - 1];
      var front := PreKids(caps, h, kids[..|kids| - 1], next);
      assert PreKids(caps, h, kids, next) == front + PreKid(caps, h, c, next);
      assert forall x :: x in front ==> x in PreKids(caps, h, kids, next);
      KidsStable(caps, gone, h, kids[..|kids| - 1], next);
      if c in caps && h < c < next {
        assert PreOrder(caps, c, next)[0] == c;
        assert forall x :: x in PreOrder(caps, c, next) ==> x in PreKids(caps, h, kids, next);
        VisitStable(caps, gone, c, next);
      }
    }
  }

  /** A live child of something visited is visited. */
  lemma {:induction false} VisitClosed(caps: Registry, h: nat, next: nat, p: nat, c: nat)
    requires Downward(caps, next) && h in caps && p in PreOrder(caps, h, next) && p in caps && c in caps
    requires c in caps[p].children
    ensures c in PreOrder(caps, h, next)
    decreases if h < next then next - h else 0, 1, 0
  {
    var i :| 0 <= i < |caps[p].children| && caps[p].children[i] == c;
    assert Listed(caps, next, p, c);
    if p == h {
      KidIn(caps, h, caps[h].children, next, i);
    } else {
      KidsClosed(caps, h, caps[h].children, next, p, c);
    }
  }

  lemma {:induction false} KidIn(caps: Registry, h: nat, kids: seq<nat>, next: nat, i: nat)
    requires i < |kids| && kids[i] in caps && h < kids[i] < next
    ensures kids[i] in PreKids(caps, h, kids, next)
    decreases |kids|
  {
    if i < |kids| - 1 {
      KidIn(caps, h, kids[..|kids| - 1], next, i);
    } else {
      assert kids[i] in PreOrder(caps, kids[i], next);
    }
  }

  lemma {:induction false} KidsClosed(caps: Registry, h: nat, kids: seq<nat>, next: nat, p: nat, c: nat)
    requires Downward(caps, next) && p in PreKids(caps, h, kids, next) && p in caps && c in caps
    requires c in caps[p].children
    ensures c in PreKids(caps, h, kids, next)
    decreases if h < next then next - h else 0, 0, |kids|
  {
    if p in PreKids(caps, h, kids[..|kids| - 1], next) {
      KidsClosed(caps, h, kids[..|kids| - 1], next, p, c);
    } else {
      VisitClosed(caps, kids[|kids| - 1], next, p, c);
    }
  }

  /** The visit is exact: it reaches the live descendants and nothing else. */
  lemma {:induction false} VisitExact(caps: Registry, h: nat, next: nat, x: nat)
    requires Forest(caps, next) && h in caps
    ensures x in PreOrder(caps, h, next) <==> x in caps && Desc(caps, h, x)
    decreases x
  {
    if x in PreOrder(caps, h, next) {
      VisitedDescend(caps, h, next, x);
    } else if x in caps && Desc(caps, h, x) && x != h {
      var p := caps[x].parent.value;
      assert Derived(caps, p, x);
      VisitExact(caps, h, next, p);
      VisitClosed(caps, h, next, p, x);
    }
  }

  // ----- tables -----

  /** A handle in a thread's table is registered globally, to that thread, with
      the same resource and permissions. */
  ghost predicate Agree(caps: Registry, tables: Tables) {
    forall t, h :: t in tables && h in tables[t] ==> Held(caps, t, h, tables[t][h])
  }

  ghost predicate Held(caps: Registry, t: nat, h: nat, c: Capability) {
    && h in caps && c.handle == h && c.owner == t && caps[h].owner == t
    && c.resource == caps[h].resource && c.perms == caps[h].perms
  }

  function Put(caps: Registry, h: nat, c: Capability): Registry { caps[h := c] }

  /** Inserting into one thread's table. */
  function Give(tables: Tables, t: nat, h: nat, c: Capability): Tables
    requires t in tables
  {
    tables[t := Put(tables[t], h, c)]
  }

  /** So no handle is in two tables. */
  lemma OneTable(caps: Registry, tables: Tables, t: nat, u: nat, h: nat)
    requires Agree(caps, tables) && t in tables && u in tables && h in tables[t] && h in tables[u]
    ensures t == u
  {
    assert Held(caps, t, h, tables[t][h]) && Held(caps, u, h, tables[u][h]);
  }

  /** The tables once each handle of `gone` has left its owner's table. */
  ghost function Strip(tables: Tables, caps: Registry, gone: set<nat>): Tables {
    map t | t in tables :: tables[t] - OwnedBy(caps, gone, t)
  }

  ghost function OwnedBy(caps: Registry, gone: set<nat>, t: nat): set<nat> {
    set h | h in gone && h in caps && caps[h].owner == t
  }

  lemma StripJoin(tables: Tables, caps: Registry, a: set<nat>, b: set<nat>)
    requires a !! b
    ensures Strip(Strip(tables, caps, a), caps - a, b) == Strip(tables, caps, a + b)
  {
    forall t | t in tables ensures Strip(Strip(tables, caps, a), caps - a, b)[t] == Strip(tables, caps, a + b)[t] {
      assert OwnedBy(caps, a + b, t) == OwnedBy(caps, a, t) + OwnedBy(caps - a, b, t);
    }
  }

  // ----- the audit log -----

  datatype Event = Create | Derive | Transfer | Revoke

  datatype AuditEntry = AuditEntry(time: nat, event: Event, thread: nat, handle: nat, parent: Option<nat>,
    target: Option<nat>)

  const MAX_AUDIT_LOG_ENTRIES: nat := 1000

  function Last<T>(s: seq<T>, n: nat): seq<T> { if |s| <= n then s else s[|s| - n..] }

  function Revocations(hs: seq<nat>, revoker: nat, now: nat): seq<AuditEntry> {
    seq(|hs|, i requires 0 <= i < |hs| => AuditEntry(now, Revoke, revoker, hs[i], None, None))
  }

  class CapabilityManager {
    var caps: Registry
    var tables: Tables
    var next: nat
    var audit: seq<AuditEntry>
    ghost var history: seq<AuditEntry>

    ghost predicate Logged()
      reads this
    {
      audit == Last(history, MAX_AUDIT_LOG_ENTRIES)
    }

    ghost predicate Valid()
      reads this
    {
      Forest(caps, next) && Agree(caps, tables) && Logged()
    }

    constructor ()
      ensures Valid() && caps == map[] && tables == map[] && history == []
    {
      caps, tables, next, audit, history := map[], map[], 1, [], [];
    }

    /** The log keeps the latest thousand entries. */
    method LogAudit(entry: AuditEntry)
      requires Logged()
      modifies `audit, `history
      ensures Logged() && history == old(history) + [entry]
    {
      if |audit| >= MAX_AUDIT_LOG_ENTRIES {
        audit := audit[1..];
      }
      audit := audit + [entry];
      history := history + [entry];
    }

    /** `get_audit_log`: up to `max` entries, newest first. */
    method GetAuditLog(max: nat) returns (r: seq<AuditEntry>)
      requires Logged()
      ensures |r| == if max < |audit| then max else |audit|
      ensures |r| <= max && |r| <= |history| && |r| <= 1000
      ensures |r| == max || |r| == |history| || |r| == 1000
      ensures forall i :: 0 <= i < |r| ==> i < |history| && r[i] == history[|history| - 1 - i]
    {
      var count := if max < |audit| then max else |audit|;
      r := [];
      while |r| < count
        invariant |r| <= count
        invariant forall i :: 0 <= i < |r| ==> r[i] == audit[|audit| - 1 - i]
      {
        r := r + [audit[|audit| - 1 - |r|]];
      }
    }

    /** `CapabilityManager::revoke`, as it recurses: removes `h` and its live
        descendants, each from the registry and from its owner's table, and returns
        them in pre-order. Needs only what removal cannot break. */
    method RevokeRec(h: nat, revoker: nat, now: nat) returns (r: Result<seq<nat>>)
      requires Downward(caps, next) && Logged()
      modifies `caps, `tables, `audit, `history
      ensures Logged() && Downward(caps, next)
      ensures h !in old(caps) ==>
        r == Err(NotFound) && caps == old(caps) && tables == old(tables) && history == old(history)
      ensures h in old(caps) ==> r == Ok(PreOrder(old(caps), h, next))
      ensures h in old(caps) ==>
        caps == old(caps) - Elems(r.value) && tables == Strip(old(tables), old(caps), Elems(r.value))
      ensures h in old(caps) ==> history == old(history) + Revocations(r.value, revoker, now)
      decreases |caps|, 1
    {
      hide Downward, Strip, Last, PreOrder, PreKids, Visited, Revocations, Elems;
      if h !in caps {
        return Err(NotFound);
      }
      ghost var c0, t0, log := caps, tables, history;
      var owner, children := caps[h].owner, caps[h].children;
      RevokeStart(c0, t0, h, next, revoker, now);
      caps := caps - {h};
      if owner in tables {
        tables := tables[owner := tables[owner] - {h}];
      }
      LogAudit(AuditEntry(now, Revoke, revoker, h, None, None));
      KeysShrink(c0, caps);
      var revoked := RevokeKids(h, children, revoker, now, c0, t0, log);
      PreOrderIs(c0, h, next);
      return Ok(revoked);
    }

    /** The loop of `revoke` over the children of `h`, which itself is gone. */
    method RevokeKids(
      h: nat, children: seq<nat>, revoker: nat, now: nat, ghost c0: Registry, ghost t0: Tables,
      ghost log: seq<AuditEntry>)
      returns (revoked: seq<nat>)
      requires Downward(c0, next) && Downward(caps, next) && Logged() && h in c0 && children == c0[h].children
      requires caps == c0 - Elems([h]) && tables == Strip(t0, c0, Elems([h]))
      requires history == log + Revocations([h], revoker, now)
      modifies `caps, `tables, `audit, `history
      ensures Logged() && Downward(caps, next) && revoked == Visited(c0, h, |children|, next)
      ensures caps == c0 - Elems(revoked) && tables == Strip(t0, c0, Elems(revoked))
      ensures history == log + Revocations(revoked, revoker, now)
      decreases |caps|, 2
    {
      hide Downward, Strip, Last, PreOrder, PreKids, Visited, Revocations, Elems, Progress;
      revoked := [h];
      ProgressNone(c0, t0, log, caps, tables, history, h, next, revoker, now);
      ghost var size := |caps|;
      var i := 0;
      while i < |children|
        invariant 0 <= i <= |children| && Logged() && Downward(caps, next) && |caps| <= size
        invariant Progress(c0, t0, log, caps, tables, history, h, i, next, revoked, revoker, now)
      {
        ghost var ci := caps;
        ProgressNext(c0, t0, log, caps, tables, history, h, i, next, revoked, revoker, now);
        var sub := RevokeRec(children[i], revoker, now);
        if sub.Ok? {
          KeysShrink(ci, caps);
          revoked := revoked + sub.value;
        }
        i := i + 1;
      }
      ProgressMeaning(c0, t0, log, caps, tables, history, h, i, next, revoked, revoker, now);
    }

    /** `revoke_capability`: exactly the capability and its live descendants go,
        from the registry and from every table, and are returned without repeats. */
    method RevokeCapability(h: nat, revoker: nat, now: nat) returns (r: Result<seq<nat>>)
      requires Valid()
      modifies `caps, `tables, `audit, `history
      ensures Valid()
      ensures r.Ok? <==> h in old(caps)
      ensures r.Err? ==> r.error == NotFound && caps == old(caps) && tables == old(tables) && history == old(history)
      ensures r.Ok? ==> NoDup(r.value) && r.value == PreOrder(old(caps), h, next)
      ensures r.Ok? ==> forall x :: x in r.value <==> x in old(caps) && Desc(old(caps), h, x)
      ensures r.Ok? ==> caps == old(caps) - Elems(r.value) && tables.Keys == old(tables).Keys
      ensures r.Ok? ==> forall t :: t in tables ==> tables[t] == old(tables)[t] - Elems(r.value)
      ensures r.Ok? ==> history == old(history) + Revocations(r.value, revoker, now)
    {
      hide PreOrder, Last, Revocations;
      ghost var c0, t0 := caps, tables;
      r := RevokeRec(h, revoker, now);
      if r.Ok? {
        VisitNoDup(c0, h, next);
        forall x ensures x in r.value <==> x in c0 && Desc(c0, h, x) {
          if x in c0 {
            VisitExact(c0, h, next, x);
          } else if x in r.value {
            VisitedDescend(c0, h, next, x);
          }
        }
        RevokedForest(c0, next, h, Elems(r.value));
        RevokedTables(c0, t0, Elems(r.value));
      }
    }

    /** `sys_cap_create`: a new root capability for a thread. It is registered even
        when the thread turns out not to exist. */
    method Create(resource: Resource, owner: nat, perms: Perms, now: nat) returns (r: Result<nat>)
      requires Valid()
      modifies this
      ensures Valid() && next == old(next) + 1
      ensures var c := Capability(old(next), resource, perms, owner, None, []);
        && old(next) !in old(caps) && caps == old(caps)[old(next) := c]
        && r == (if owner in old(tables) then Ok(old(next)) else Err(NotFound))
        && tables.Keys == old(tables).Keys && (forall t :: t in tables && t != owner ==> tables[t] == old(tables)[t])
        && (owner in tables ==> tables[owner] == old(tables)[owner][old(next) := c])
        && history == old(history) + [AuditEntry(now, Event.Create, owner, old(next), None, None)]
    {
      hide Last;
      var c := Capability(next, resource, perms, owner, None, []);
      CreateForest(caps, next, c);
      AgreeCreated(caps, tables, next, c);
      var h := next;
      next := next + 1;
      caps := caps[h := c];
      LogAudit(AuditEntry(now, Event.Create, owner, h, None, None));
      if owner !in tables {
        return Err(NotFound);
      }
      tables := Give(tables, owner, h, c);
      return Ok(h);
    }

    /** The checks of `derive_capability`, in order. */
    function DeriveRefusal(p: nat, caller: nat, perms: Perms): Option<CapError>
      reads this
    {
      if caller !in tables || p !in tables[caller] || p !in caps then Some(NotFound)
      else if caps[p].owner != caller then Some(NotOwner)
      else if !(GRANT <= caps[p].perms && perms <= caps[p].perms) then Some(PermissionDenied)
      else None
    }

    /** `derive_capability`: a child with reduced permissions for another thread. A
        missing new owner is noticed only after the child is registered. */
    method Derive(p: nat, caller: nat, newOwner: nat, perms: Perms, now: nat) returns (r: Result<nat>)
      requires Valid()
      modifies this
      ensures Valid()
      ensures var e := old(DeriveRefusal(p, caller, perms));
        r == if e.Some? then Err(e.value) else if newOwner !in old(tables) then Err(NotFound) else Ok(old(next))
      ensures r.Ok? ==>
        && caller in old(tables) && p in old(tables)[caller] && p in old(caps) && old(caps)[p].owner == caller
        && 3 in old(caps)[p].perms && perms <= old(caps)[p].perms
      ensures r == Err(PermissionDenied) <==>
        && caller in old(tables) && p in old(tables)[caller] && p in old(caps) && old(caps)[p].owner == caller
        && !(3 in old(caps)[p].perms && perms <= old(caps)[p].perms)
      ensures old(DeriveRefusal(p, caller, perms)).Some? ==> caps == old(caps) && next == old(next)
      ensures old(DeriveRefusal(p, caller, perms)).None? ==>
        var c := Capability(old(next), old(caps)[p].resource, perms, newOwner, Some(p), []);
        && old(next) !in old(caps) && next == old(next) + 1
        && caps == old(caps)[p := old(caps)[p].(children := old(caps)[p].children + [old(next)])][old(next) := c]
      ensures r.Err? ==> tables == old(tables) && history == old(history)
      ensures r.Ok? ==> r.value in caps && newOwner in old(tables)
      ensures r.Ok? ==> tables.Keys == old(tables).Keys && forall t :: t in tables ==>
        tables[t] == if t == newOwner then old(tables)[t][r.value := caps[r.value]] else old(tables)[t]
      ensures r.Ok? ==> history == old(history) + [AuditEntry(now, Event.Derive, caller, r.value, Some(p), None)]
    {
      hide Last;
      if caller !in tables || p !in tables[caller] {
        return Err(NotFound);
      }
      if p !in caps {
        return Err(NotFound);
      }
      var parent := caps[p];
      if parent.owner != caller {
        return Err(NotOwner);
      }
      ContainsIsSubset(parent.perms, GRANT);
      ContainsIsSubset(parent.perms, perms);
      if !Contains(parent.perms, GRANT) {
        return Err(PermissionDenied);
      }
      if !SubsetOf(perms, parent.perms) {
        return Err(PermissionDenied);
      }
      var h := next;
      var c := Capability(h, parent.resource, perms, newOwner, Some(p), []);
      DeriveForest(caps, next, p, c);
      AgreeDerived(caps, tables, next, p, c);
      next := next + 1;
      caps := caps[p := parent.(children := parent.children + [h])][h := c];
      if newOwner !in tables {
        return Err(NotFound);
      }
      tables := Give(tables, newOwner, h, c);
      LogAudit(AuditEntry(now, Event.Derive, caller, h, Some(p), None));
      return Ok(h);
    }

    /** `transfer_capability`: moves a capability with the grant permission between
        tables and re-registers its owner. To a thread that does not exist, the
        source's entry is lost while the registry still names the source. */
    method TransferCapability(h: nat, source: nat, target: nat, now: nat) returns (r: Result<()>)
      requires Valid()
      modifies `caps, `tables, `audit, `history
      ensures Valid() && caps.Keys == old(caps).Keys && tables.Keys == old(tables).Keys
      ensures r == if source !in old(tables) || h !in old(tables)[source] then Err(NotFound)
        else if 3 !in old(tables)[source][h].perms then Err(PermissionDenied)
        else if target !in old(tables) then Err(AlreadyExists)
        else Ok(())
      ensures r.Err? ==> caps == old(caps)
      ensures r.Err? && r.error != AlreadyExists ==> tables == old(tables)
      ensures r == Err(AlreadyExists) ==> tables == old(tables)[source := old(tables)[source] - {h}]
      ensures r.Ok? ==> h in old(caps) && caps == old(caps)[h := old(caps)[h].(owner := target)]
      ensures r.Ok? ==> var without := old(tables)[source := old(tables)[source] - {h}];
        tables == without[target := without[target][h := old(tables)[source][h].(owner := target)]]
      ensures var entry := AuditEntry(now, Event.Transfer, source, h, None, Some(target));
        history == if r.Ok? then old(history) + [entry] else old(history)
    {
      hide Last;
      if source !in tables || h !in tables[source] {
        return Err(NotFound);
      }
      var c := tables[source][h];
      assert Held(caps, source, h, c);
      var t0 := tables;
      tables := tables[source := tables[source] - {h}];
      AgreeRemoved(caps, t0, source, h);
      if c.owner != source {
        assert false; // ruled out by `Agree`: a table holds only what its thread owns
      }
      ContainsIsSubset(c.perms, GRANT);
      if !Contains(c.perms, GRANT) {
        tables := Give(tables, source, h, c);
        assert tables == t0 by { assert tables[source] == t0[source]; }
        return Err(PermissionDenied);
      }
      if target !in tables {
        return Err(AlreadyExists);
      }
      if h in tables[target] {
        return Err(AlreadyExists);
      }
      AgreeMoved(caps, tables, h, target, c);
      OwnerForest(caps, next, h, target);
      tables := Give(tables, target, h, c.(owner := target));
      if h in caps {
        caps := caps[h := caps[h].(owner := target)];
      }
      LogAudit(AuditEntry(now, Event.Transfer, source, h, None, Some(target)));
      return Ok(());
    }

    /** A thread that joins gets an empty table. */
    method AddThread(t: nat)
      requires Valid() && t !in tables
      modifies `tables
      ensures Valid() && tables == old(tables)[t := map[]]
    {
      tables := tables[t := map[]];
    }

    /** `validate_capability`: what passes is live, owned by the thread, and grants
        what was asked. */
    method ValidateCapability(t: nat, h: nat, required: Perms) returns (r: Result<()>)
      requires Valid()
      ensures r == if t !in tables || h !in tables[t] then Err(NotFound)
        else if !(required <= tables[t][h].perms) then Err(PermissionDenied) else Ok(())
      ensures r.Ok? ==> h in caps && caps[h].owner == t && required <= caps[h].perms
    {
      if t !in tables || h !in tables[t] {
        return Err(NotFound);
      }
      ContainsIsSubset(tables[t][h].perms, required);
      if !Contains(tables[t][h].perms, required) {
        return Err(PermissionDenied);
      }
      assert Held(caps, t, h, tables[t][h]);
      return Ok(());
    }
  }

  lemma RevocationsJoin(log: seq<AuditEntry>, s: seq<nat>, t: seq<nat>, revoker: nat, now: nat)
    ensures log + Revocations(s + t, revoker, now) == log + Revocations(s, revoker, now) + Revocations(t, revoker, now)
  {
  }

  lemma KeysShrink(caps: Registry, caps': Registry)
    requires caps'.Keys <= caps.Keys
    ensures |caps'| <= |caps| && (caps'.Keys < caps.Keys ==> |caps'| < |caps|)
  {
    var d := caps.Keys - caps'.Keys;
    assert caps.Keys == caps'.Keys + d;
    assert |caps.Keys| == |caps'.Keys| + |d|;
    assert |caps| == |caps.Keys| && |caps'| == |caps'.Keys|;
  }

  lemma PreOrderIs(caps: Registry, h: nat, next: nat)
    requires h in caps
    ensures PreOrder(caps, h, next) == Visited(caps, h, |caps[h].children|, next)
  {
    assert caps[h].children[..|caps[h].children|] == caps[h].children;
  }

  /** The revocation of `h` has dealt with its first `i` children. */
  ghost predicate Progress(
    c0: Registry, t0: Tables, log: seq<AuditEntry>, caps: Registry, tables: Tables, history: seq<AuditEntry>,
    h: nat, i: nat, next: nat, revoked: seq<nat>, revoker: nat, now: nat)
    requires h in c0 && i <= |c0[h].children|
  {
    && revoked == Visited(c0, h, i, next) && caps == c0 - Elems(revoked) && tables == Strip(t0, c0, Elems(revoked))
    && history == log + Revocations(revoked, revoker, now)
  }

  lemma ProgressNone(
    c0: Registry, t0: Tables, log: seq<AuditEntry>, caps: Registry, tables: Tables, history: seq<AuditEntry>,
    h: nat, next: nat, revoker: nat, now: nat)
    requires h in c0 && caps == c0 - Elems([h]) && tables == Strip(t0, c0, Elems([h]))
    requires history == log + Revocations([h], revoker, now)
    ensures Progress(c0, t0, log, caps, tables, history, h, 0, next, [h], revoker, now)
  {
    VisitedNone(c0, h, next);
  }

  lemma ProgressMeaning(
    c0: Registry, t0: Tables, log: seq<AuditEntry>, caps: Registry, tables: Tables, history: seq<AuditEntry>,
    h: nat, i: nat, next: nat, revoked: seq<nat>, revoker: nat, now: nat)
    requires h in c0 && i <= |c0[h].children|
    requires Progress(c0, t0, log, caps, tables, history, h, i, next, revoked, revoker, now)
    ensures revoked == Visited(c0, h, i, next) && caps == c0 - Elems(revoked) && tables == Strip(t0, c0, Elems(revoked))
    ensures history == log + Revocations(revoked, revoker, now)
  {
  }

  lemma ProgressNext(
    c0: Registry, t0: Tables, log: seq<AuditEntry>, caps: Registry, tables: Tables, history: seq<AuditEntry>,
    h: nat, i: nat, next: nat, revoked: seq<nat>, revoker: nat, now: nat)
    requires Downward(c0, next) && h in c0 && i < |c0[h].children|
    requires Progress(c0, t0, log, caps, tables, history, h, i, next, revoked, revoker, now)
    ensures var c := c0[h].children[i];
      && (c !in caps ==> Progress(c0, t0, log, caps, tables, history, h, i + 1, next, revoked, revoker, now))
      && (c in caps ==>
            var sub := PreOrder(caps, c, next);
            var tables', history' := Strip(tables, caps, Elems(sub)), history + Revocations(sub, revoker, now);
            Progress(
              c0, t0, log, caps - Elems(sub), tables', history', h, i + 1, next, revoked + sub, revoker, now))
  {
    hide PreOrder, Strip, Revocations, Elems, Visited, Downward;
    RevokeNext(c0, t0, log, h, i, next, revoked, revoker, now);
  }

  lemma VisitedNone(caps: Registry, h: nat, next: nat)
    requires h in caps
    ensures Visited(caps, h, 0, next) == [h]
  {
  }

  /** What has been revoked once the first `i` children are done. */
  ghost function Visited(caps: Registry, h: nat, i: nat, next: nat): seq<nat>
    requires h in caps && i <= |caps[h].children|
  {
    [h] + PreKids(caps, h, caps[h].children[..i], next)
  }

  lemma DownwardShrinks(caps: Registry, next: nat, gone: set<nat>)
    requires Downward(caps, next)
    ensures Downward(caps - gone, next)
  {
    forall h, i | h in caps - gone && 0 <= i < |caps[h].children|
      ensures Listed(caps - gone, next, h, caps[h].children[i])
    {
      assert Listed(caps, next, h, caps[h].children[i]);
    }
  }

  lemma RevokeStart(caps: Registry, tables: Tables, h: nat, next: nat, revoker: nat, now: nat)
    requires Downward(caps, next) && h in caps
    ensures Downward(caps - {h}, next)
    ensures Visited(caps, h, 0, next) == [h] && Elems([h]) == {h}
    ensures Strip(tables, caps, {h}) ==
      if caps[h].owner in tables then tables[caps[h].owner := tables[caps[h].owner] - {h}] else tables
    ensures Revocations([h], revoker, now) == [AuditEntry(now, Revoke, revoker, h, None, None)]
  {
    DownwardShrinks(caps, next, {h});
    forall t | t in tables ensures Strip(tables, caps, {h})[t] == if t ==
      caps[h].owner then tables[t] - {h} else tables[t] {
      assert OwnedBy(caps, {h}, t) == if t == caps[h].owner then {h} else {};
    }
  }

  /** The next child's subtree is untouched so far, and what it adds continues
      the pre-order. */
  lemma RevokeNext(
    caps: Registry, tables: Tables, log: seq<AuditEntry>, h: nat, i: nat, next: nat, revoked: seq<nat>, revoker: nat,
      now: nat)
    requires Downward(caps, next) && h in caps && i < |caps[h].children|
    requires revoked == Visited(caps, h, i, next)
    ensures var c := caps[h].children[i];
      && (c in caps <==> c in caps - Elems(revoked))
      && (c !in caps ==> Visited(caps, h, i + 1, next) == revoked)
      && (c in caps ==>
            var rest, sub := caps - Elems(revoked), PreOrder(caps, c, next);
            var all := revoked + sub;
            && PreOrder(rest, c, next) == sub && all == Visited(caps, h, i + 1, next)
            && rest - Elems(sub) == caps - Elems(all)
            && Strip(Strip(tables, caps, Elems(revoked)), rest, Elems(sub)) == Strip(tables, caps, Elems(all))
            && log + Revocations(revoked, revoker, now) + Revocations(sub, revoker, now) ==
                 log + Revocations(all, revoker, now))
  {
    var kids := caps[h].children;
    var c := kids[i];
    assert Listed(caps, next, h, c);
    assert kids[..i + 1][..i] == kids[..i] && kids[..i + 1][i] == c;
    forall x | x in revoked ensures x != c && (c in caps ==> x !in PreOrder(caps, c, next)) {
      if x != h {
        NextKidApart(caps, h, i, next, x);
      }
      if c in caps && x in PreOrder(caps, c, next) {
        VisitedDescend(caps, c, next, x);
        DescOrder(caps, c, x);
      }
    }
    if c in caps {
      var sub := PreOrder(caps, c, next);
      VisitStable(caps, Elems(revoked), c, next);
      StripJoin(tables, caps, Elems(revoked), Elems(sub));
      assert Elems(revoked + sub) == Elems(revoked) + Elems(sub);
      RevocationsJoin(log, revoked, sub, revoker, now);
    }
    assert PreKids(caps, h, kids[..i + 1], next) == PreKids(caps, h, kids[..i], next) + PreKid(caps, h, c, next);
    assert Visited(caps, h, i + 1, next) == revoked + PreKid(caps, h, c, next);
  }

  // ----- keeping the invariants -----

  lemma RevokedForest(caps: Registry, next: nat, h: nat, gone: set<nat>)
    requires Forest(caps, next) && h in caps && forall x :: x in gone <==> x in caps && Desc(caps, h, x)
    ensures Forest(caps - gone, next)
  {
    DownwardShrinks(caps, next, gone);
    forall c | c in caps - gone && caps[c].parent.Some? ensures Derived(caps - gone, caps[c].parent.value, c) {
      assert Derived(caps, caps[c].parent.value, c);
    }
  }

  lemma RevokedTables(caps: Registry, tables: Tables, gone: set<nat>)
    requires Agree(caps, tables)
    ensures forall t :: t in tables ==> Strip(tables, caps, gone)[t] == tables[t] - gone
    ensures Agree(caps - gone, Strip(tables, caps, gone))
  {
    forall t | t in tables ensures Strip(tables, caps, gone)[t] == tables[t] - gone {
      forall h | h in tables[t] ensures h in gone <==> h in OwnedBy(caps, gone, t) {
        assert Held(caps, t, h, tables[t][h]);
      }
    }
    forall t, h | t in tables && h in Strip(tables, caps, gone)[t]
      ensures Held(caps - gone, t, h, Strip(tables, caps, gone)[t][h])
    {
      assert Held(caps, t, h, tables[t][h]);
    }
  }

  lemma CreateForest(caps: Registry, next: nat, c: Capability)
    requires Forest(caps, next) && c.handle == next && c.parent == None && c.children == []
    ensures Forest(caps[next := c], next + 1)
  {
    var caps' := caps[next := c];
    forall h, i | h in caps' && 0 <= i < |caps'[h].children| ensures Listed(caps', next + 1, h, caps'[h].children[i]) {
      assert Listed(caps, next, h, caps[h].children[i]);
    }
    forall d | d in caps' && caps'[d].parent.Some? ensures Derived(caps', caps'[d].parent.value, d) {
      assert Derived(caps, caps[d].parent.value, d);
    }
  }

  lemma DeriveForest(caps: Registry, next: nat, p: nat, c: Capability)
    requires Forest(caps, next) && p in caps && c.handle == next && c.parent == Some(p) && c.children == []
    requires c.resource == caps[p].resource && c.perms <= caps[p].perms
    ensures Forest(caps[p := caps[p].(children := caps[p].children + [next])][next := c], next + 1)
  {
    var kids := caps[p].children + [next];
    var caps' := caps[p := caps[p].(children := kids)][next := c];
    assert forall i :: 0 <= i < |caps[p].children| ==> Listed(caps, next, p, caps[p].children[i]);
    forall h, i | h in caps' && 0 <= i < |caps'[h].children| ensures Listed(caps', next + 1, h, caps'[h].children[i]) {
      if h != next && !(h == p && i == |caps[p].children|) {
        assert caps'[h].children[i] == caps[h].children[i];
        assert Listed(caps, next, h, caps[h].children[i]);
      }
    }
    forall d | d in caps' && caps'[d].parent.Some? ensures Derived(caps', caps'[d].parent.value, d) {
      if d == next {
        assert kids[|kids| - 1] == next;
      } else {
        assert Derived(caps, caps[d].parent.value, d);
      }
    }
  }

  lemma OwnerForest(caps: Registry, next: nat, h: nat, owner: nat)
    requires Forest(caps, next) && h in caps
    ensures Forest(caps[h := caps[h].(owner := owner)], next)
  {
    var caps' := caps[h := caps[h].(owner := owner)];
    forall g, i | g in caps' && 0 <= i < |caps'[g].children| ensures Listed(caps', next, g, caps'[g].children[i]) {
      assert Listed(caps, next, g, caps[g].children[i]);
    }
    forall d | d in caps' && caps'[d].parent.Some? ensures Derived(caps', caps'[d].parent.value, d) {
      assert Derived(caps, caps[d].parent.value, d);
    }
  }

  lemma AgreeCreated(caps: Registry, tables: Tables, next: nat, c: Capability)
    requires Agree(caps, tables) && next !in caps && c.handle == next
    ensures Agree(caps[next := c], tables)
    ensures c.owner in tables ==> Agree(caps[next := c], Give(tables, c.owner, next, c))
  {
    forall t, h | t in tables && h in tables[t] ensures Held(caps[next := c], t, h, tables[t][h]) {
      assert Held(caps, t, h, tables[t][h]);
    }
  }

  lemma AgreeDerived(caps: Registry, tables: Tables, next: nat, p: nat, c: Capability)
    requires Agree(caps, tables) && next !in caps && p in caps && c.handle == next
    ensures var caps' := caps[p := caps[p].(children := caps[p].children + [next])][next := c];
      && Agree(caps', tables)
      && (c.owner in tables ==> Agree(caps', Give(tables, c.owner, next, c)))
  {
    var caps1 := caps[p := caps[p].(children := caps[p].children + [next])];
    forall t, h | t in tables && h in tables[t] ensures Held(caps1, t, h, tables[t][h]) {
      assert Held(caps, t, h, tables[t][h]);
    }
    AgreeCreated(caps1, tables, next, c);
  }

  lemma AgreeRemoved(caps: Registry, tables: Tables, t: nat, h: nat)
    requires Agree(caps, tables) && t in tables
    ensures Agree(caps, tables[t := tables[t] - {h}])
    ensures forall u :: u in tables && u != t && h in tables[t] ==> h !in tables[u]
  {
    var tables' := tables[t := tables[t] - {h}];
    forall u, g | u in tables' && g in tables'[u] ensures Held(caps, u, g, tables'[u][g]) {
      assert Held(caps, u, g, tables[u][g]);
    }
    forall u | u in tables && u != t && h in tables[t] ensures h !in tables[u] {
      if h in tables[u] {
        OneTable(caps, tables, t, u, h);
      }
    }
  }

  lemma AgreeMoved(caps: Registry, tables: Tables, h: nat, target: nat, c: Capability)
    requires Agree(caps, tables) && h in caps && target in tables && forall u :: u in tables ==> h !in tables[u]
    requires c.handle == h && c.resource == caps[h].resource && c.perms == caps[h].perms
    ensures Agree(caps[h := caps[h].(owner := target)], Give(tables, target, h, c.(owner := target)))
  {
    var caps', tables' := caps[h := caps[h].(owner := target)], Give(tables, target, h, c.(owner := target));
    forall u, g | u in tables' && g in tables'[u] ensures Held(caps', u, g, tables'[u][g]) {
      if g != h {
        assert Held(caps, u, g, tables[u][g]);
      }
    }
  }
}
