/** Wait-for graphs: every thread waits for at most one other thread, so a graph
    is a partial map and following it is a walk. */
module WaitGraph {
  import opened Words

  type Graph = map<nat, nat>

  /** The thread reached from `t` after `n` edges, if there are that many. */
  ghost function Walk(g: Graph, t: nat, n: nat): Option<nat>
    decreases n
  {
    if n == 0 then Some(t) else if t in g then Walk(g, g[t], n - 1) else None
  }

  ghost predicate Reaches(g: Graph, t: nat, u: nat) {
    exists n: nat :: Walk(g, t, n) == Some(u)
  }

  /** No walk of one edge or more comes back to where it began. */
  ghost predicate Acyclic(g: Graph) {
    forall t: nat, n: nat :: n >= 1 ==> Walk(g, t, n) != Some(t)
  }

  predicate SubGraph(g: Graph, h: Graph) {
    forall x :: x in g ==> x in h && h[x] == g[x]
  }

  lemma {:induction false} WalkJoin(g: Graph, t: nat, m: nat, u: nat, n: nat)
    requires Walk(g, t, m) == Some(u)
    ensures Walk(g, t, m + n) == Walk(g, u, n)
    decreases m
  {
    if m > 0 { WalkJoin(g, g[t], m - 1, u, n); }
  }

  lemma {:induction false} WalkSub(g: Graph, h: Graph, t: nat, n: nat)
    requires SubGraph(g, h) && Walk(g, t, n).Some?
    ensures Walk(h, t, n) == Walk(g, t, n)
    decreases n
  {
    if n > 0 { WalkSub(g, h, g[t], n - 1); }
  }

  /** Dropping edges never makes a cycle. */
  lemma SubAcyclic(g: Graph, h: Graph)
    requires SubGraph(g, h) && Acyclic(h)
    ensures Acyclic(g)
  {
    forall t: nat, n: nat | n >= 1 ensures Walk(g, t, n) != Some(t) {
      if Walk(g, t, n) == Some(t) { WalkSub(g, h, t, n); }
    }
  }

  /** A walk from `s` to `u` either never leaves `t`, or its last part starts there. */
  lemma {:induction false} Avoid(g: Graph, t: nat, s: nat, u: nat, n: nat)
    requires Walk(g, s, n) == Some(u)
    ensures Walk(g - {t}, s, n) == Some(u) || exists m: nat :: m <= n && Walk(g, t, m) == Some(u)
    decreases n
  {
    if s == t {
      assert Walk(g, t, n) == Some(u);
    } else if n > 0 {
      Avoid(g, t, g[s], u, n - 1);
    }
  }

  lemma Without(g: Graph, t: nat)
    requires t in g
    ensures SubGraph(g - {t}, g) && |g - {t}| == |g| - 1
  {
    assert (g - {t}).Keys == g.Keys - {t};
    assert |g.Keys - {t}| == |g.Keys| - 1;
  }

  /** Whatever can be reached can be reached in as many steps as there are edges. */
  lemma {:induction false} Shortest(g: Graph, t: nat, u: nat, n: nat) returns (m: nat)
    requires Walk(g, t, n) == Some(u)
    ensures m <= |g| && Walk(g, t, m) == Some(u)
    decreases |g|, n
  {
    if t == u {
      m := 0;
    } else {
      var h := g - {t};
      Without(g, t);
      Avoid(g, t, g[t], u, n - 1);
      if Walk(h, g[t], n - 1) == Some(u) {
        var k := Shortest(h, g[t], u, n - 1);
        WalkSub(h, g, g[t], k);
        m := k + 1;
      } else {
        var k: nat :| k <= n - 1 && Walk(g, t, k) == Some(u);
        m := Shortest(g, t, u, k);
      }
    }
  }

  /** Before a walk first meets `t` it only uses edges that do not start at `t`. */
  lemma {:induction false} OldWalk(g: Graph, t: nat, u: nat, s: nat, n: nat)
    requires Walk(g[t := u], s, n) == Some(t)
    ensures Reaches(g, s, t)
    decreases n
  {
    if s == t {
      assert Walk(g, s, 0) == Some(t);
    } else {
      OldWalk(g, t, u, g[s], n - 1);
      var m: nat :| Walk(g, g[s], m) == Some(t);
      assert Walk(g, s, m + 1) == Some(t);
    }
  }

  /** A walk that is not one of the old graph passes through the new edge. */
  lemma {:induction false} NewWalk(g: Graph, h: Graph, t: nat, s: nat, n: nat)
    requires t in h && h == g[t := h[t]]
    requires Walk(h, s, n).Some? && Walk(g, s, n) != Walk(h, s, n)
    ensures exists m: nat :: m < n && Walk(h, s, m) == Some(t)
    decreases n
  {
    if s == t {
      assert Walk(h, s, 0) == Some(t);
    } else {
      NewWalk(g, h, t, g[s], n - 1);
      var m: nat :| m < n - 1 && Walk(h, g[s], m) == Some(t);
      assert Walk(h, s, m + 1) == Some(t);
    }
  }

  lemma {:induction false} SameStart(g: Graph, t: nat, u: nat, s: nat, n: nat)
    requires Walk(g, s, n) == Some(t)
    ensures Reaches(g[t := u], s, t)
    decreases n
  {
    var h := g[t := u];
    if s == t {
      assert Walk(h, s, 0) == Some(t);
    } else {
      SameStart(g, t, u, g[s], n - 1);
      var m: nat :| Walk(h, g[s], m) == Some(t);
      assert Walk(h, s, m + 1) == Some(t);
    }
  }

  /** Letting `t` wait for `u` keeps the graph acyclic when `t` cannot be reached from `u`. */
  lemma AddEdge(g: Graph, t: nat, u: nat)
    requires Acyclic(g) && !Reaches(g, u, t)
    ensures Acyclic(g[t := u])
  {
    var h := g[t := u];
    forall s: nat, n: nat | n >= 1 ensures Walk(h, s, n) != Some(s) {
      if Walk(h, s, n) == Some(s) && Walk(g, s, n) != Some(s) {
        NewWalk(g, h, t, s, n);
        var m: nat :| m < n && Walk(h, s, m) == Some(t);
        WalkJoin(h, s, m, t, n - m);
        WalkJoin(h, t, n - m, s, m);
        assert Walk(h, t, n) == Some(t);
        OldWalk(g, t, u, u, n - 1);
      }
    }
  }

  /** And only then: refusing exactly those edges is the weakest check that avoids a cycle. */
  lemma EdgeExact(g: Graph, t: nat, u: nat)
    requires Acyclic(g)
    ensures Acyclic(g[t := u]) <==> !Reaches(g, u, t)
  {
    var h := g[t := u];
    if Reaches(g, u, t) {
      var n: nat :| Walk(g, u, n) == Some(t);
      SameStart(g, t, u, u, n);
      var m: nat :| Walk(h, u, m) == Some(t);
      assert Walk(h, t, m + 1) == Some(t);
    } else {
      AddEdge(g, t, u);
    }
  }

  /** Without cycles every chain of waits ends at a thread that waits for nobody. */
  lemma {:induction false} ChainEnds(g: Graph, t: nat) returns (n: nat, u: nat)
    requires Acyclic(g)
    ensures n <= |g| && Walk(g, t, n) == Some(u) && u !in g
    decreases |g|
  {
    if t !in g {
      n, u := 0, t;
    } else {
      var h := g - {t};
      Without(g, t);
      SubAcyclic(h, g);
      var k, v := ChainEnds(h, g[t]);
      WalkSub(h, g, g[t], k);
      assert Walk(g, t, k + 1) == Some(v);
      n, u := k + 1, v;
    }
  }
}
