/** The terminal's glob matcher (userspace/drivers/terminal/src/parser.rs,
    `glob_match`): one pass over the text that backtracks only to the last star. */
module Glob {
  import opened Words

  type Byte = b: nat | b < 256
  type Text = seq<Byte>

  const STAR: Byte := 42
  const QUESTION: Byte := 63

  /** A pattern byte that the loop's first branch lets consume a text byte. */
  predicate Consumes(p: Byte, t: Byte) { p == QUESTION || p == t }

  /** What a glob means: a star stands for any run of bytes, a question mark for
      one byte, everything else for itself. */
  ghost predicate Means(p: Text, t: Text)
    decreases |p|
  {
    if p == [] then t == []
    else if p[0] == STAR then exists k :: 0 <= k <= |t| && Means(p[1..], t[k..])
    else t != [] && Consumes(p[0], t[0]) && Means(p[1..], t[1..])
  }

  /** What the loop decides: a star that faces a star byte of the text is taken
      for that one byte. */
  ghost predicate Literal(p: Text, t: Text)
    decreases |p|
  {
    if p == [] then t == []
    else if t != [] && Consumes(p[0], t[0]) then Literal(p[1..], t[1..])
    else p[0] == STAR && exists k :: 0 <= k <= |t| && Literal(p[1..], t[k..])
  }

  /** Some tail of `t` from `from` on is matched by `p`. */
  ghost predicate Later(p: Text, t: Text, from: nat) {
    exists k :: from <= k <= |t| && Literal(p, t[k..])
  }

  lemma LaterIs(p: Text, t: Text, from: nat)
    requires p != [] && p[0] == STAR && from <= |t| && (from < |t| ==> t[from] != STAR)
    ensures Literal(p, t[from..]) <==> Later(p[1..], t, from)
  {
    var u := t[from..];
    var rest := p[1..];
    assert Literal(p, u) <==> exists k :: 0 <= k <= |u| && Literal(rest, u[k..]);
    hide Literal;
    forall k | 0 <= k <= |u| ensures u[k..] == t[from + k..] { }
    if Later(rest, t, from) {
      var k :| from <= k <= |t| && Literal(rest, t[k..]);
      assert Literal(rest, u[k - from..]);
    }
    if k :| 0 <= k <= |u| && Literal(rest, u[k..]) {
      assert Literal(rest, t[from + k..]);
    }
  }

  lemma Consumed(p: Text, t: Text, pi: nat, ti: nat)
    requires pi < |p| && ti < |t| && Consumes(p[pi], t[ti])
    ensures Literal(p[pi..], t[ti..]) <==> Literal(p[pi + 1..], t[ti + 1..])
  {
    assert p[pi..][1..] == p[pi + 1..] && t[ti..][1..] == t[ti + 1..];
  }

  lemma Stuck(p: Text, t: Text, pi: nat, ti: nat)
    requires pi <= |p| && ti < |t|
    requires pi < |p| ==> !Consumes(p[pi], t[ti]) && p[pi] != STAR
    ensures !Literal(p[pi..], t[ti..])
  {
  }

  /** Since the star at `sp` took `st` bytes, every pattern byte consumed one text byte. */
  ghost predicate Marched(p: Text, t: Text, a: nat, st: nat, n: nat) {
    && a + n <= |p| && st + n <= |t|
    && forall i :: a <= i < a + n ==> Consumes(p[i], t[i - a + st])
  }

  /** Starting the same stretch of pattern later never gets ahead of where it
      stands now, so what follows can still be matched from here. */
  lemma {:induction false} Overtake(p: Text, t: Text, a: nat, st: nat, n: nat, k: nat)
    requires Marched(p, t, a, st, n) && st <= k <= |t| && Literal(p[a..], t[k..])
    ensures Later(p[a + n..], t, st + n)
    decreases n
  {
    if n == 0 {
      assert Literal(p[a..], t[k..]);
    } else {
      assert Consumes(p[a], t[st]);
      var q := OneFurther(p, t, a, st, k);
      Overtake(p, t, a + 1, st + 1, n - 1, q);
      assert p[a + 1 + (n - 1)..] == p[a + n..];
    }
  }

  lemma OneFurther(p: Text, t: Text, a: nat, st: nat, k: nat) returns (q: nat)
    requires a < |p| && st < |t| && Consumes(p[a], t[st]) && st <= k <= |t| && Literal(p[a..], t[k..])
    ensures st + 1 <= q <= |t| && Literal(p[a + 1..], t[q..])
  {
    var u := t[k..];
    assert p[a..][0] == p[a] && p[a..][1..] == p[a + 1..];
    if u != [] && Consumes(p[a], u[0]) {
      assert u[1..] == t[k + 1..];
      q := k + 1;
    } else {
      var j :| 0 <= j <= |u| && Literal(p[a..][1..], u[j..]);
      assert u[j..] == t[k + j..];
      q := k + j;
    }
  }

  /** A star met after a stretch makes every earlier star irrelevant. */
  lemma LastStar(p: Text, t: Text, a: nat, st: nat, pi: nat, ti: nat)
    requires a <= pi < |p| && st <= ti < |t| && pi - a == ti - st && Marched(p, t, a, st, pi - a)
    requires p[pi] == STAR && t[ti] != STAR
    ensures Later(p[a..], t, st) <==> Later(p[pi + 1..], t, ti)
  {
    hide Literal, Marched;
    assert p[pi..][1..] == p[pi + 1..];
    LaterIs(p[pi..], t, ti);
    if Later(p[a..], t, st) {
      var k :| st <= k <= |t| && Literal(p[a..], t[k..]);
      Overtake(p, t, a, st, pi - a, k);
      var q :| ti <= q <= |t| && Literal(p[pi..], t[q..]);
      StarFrom(p, t, pi, q);
    }
    if Later(p[pi + 1..], t, ti) {
      MarchedBack(p, t, a, st, pi - a);
    }
  }

  lemma StarFrom(p: Text, t: Text, pi: nat, q: nat)
    requires pi < |p| && p[pi] == STAR && q <= |t| && Literal(p[pi..], t[q..])
    ensures Later(p[pi + 1..], t, q)
  {
    var u := t[q..];
    assert p[pi..][1..] == p[pi + 1..];
    if u != [] && Consumes(STAR, u[0]) {
      assert u[1..] == t[q + 1..];
    } else {
      var j :| 0 <= j <= |u| && Literal(p[pi..][1..], u[j..]);
      assert u[j..] == t[q + j..];
    }
  }

  /** Where the stretch stands now decides the attempt that began at `st`. */
  lemma {:induction false} MarchedBack(p: Text, t: Text, a: nat, st: nat, n: nat)
    requires Marched(p, t, a, st, n)
    ensures Literal(p[a..], t[st..]) <==> Literal(p[a + n..], t[st + n..])
    decreases n
  {
    if n > 0 {
      assert Consumes(p[a + n - 1], t[st + n - 1]);
      MarchedBack(p, t, a, st, n - 1);
      Consumed(p, t, a + n - 1, st + n - 1);
    }
  }

  /** The loop's state decides the whole match: without a star the rest must
      match here; with one at `sp`, its rest must match from `st` on. */
  ghost predicate Standing(p: Text, t: Text, pi: nat, ti: nat, star: Option<nat>, st: nat) {
    && pi <= |p| && ti <= |t| && st <= ti
    && match star
       case None => Literal(p, t) <==> Literal(p[pi..], t[ti..])
       case Some(sp) =>
         && sp < pi && pi - (sp + 1) == ti - st && Marched(p, t, sp + 1, st, ti - st)
         && (Literal(p, t) <==> Later(p[sp + 1..], t, st))
  }

  lemma StandConsume(p: Text, t: Text, pi: nat, ti: nat, star: Option<nat>, st: nat)
    requires Standing(p, t, pi, ti, star, st) && pi < |p| && ti < |t| && Consumes(p[pi], t[ti])
    ensures Standing(p, t, pi + 1, ti + 1, star, st)
  {
    Consumed(p, t, pi, ti);
  }

  lemma StandStar(p: Text, t: Text, pi: nat, ti: nat, star: Option<nat>, st: nat)
    requires Standing(p, t, pi, ti, star, st) && pi < |p| && ti < |t| && p[pi] == STAR && t[ti] != STAR
    ensures Standing(p, t, pi + 1, ti, Some(pi), ti)
  {
    match star
    case None =>
      assert p[pi..][1..] == p[pi + 1..];
      LaterIs(p[pi..], t, ti);
    case Some(sp) => LastStar(p, t, sp + 1, st, pi, ti);
  }

  lemma StandBack(p: Text, t: Text, pi: nat, ti: nat, sp: nat, st: nat)
    requires Standing(p, t, pi, ti, Some(sp), st) && ti < |t|
    requires pi < |p| ==> !Consumes(p[pi], t[ti]) && p[pi] != STAR
    ensures Standing(p, t, sp + 1, st + 1, Some(sp), st + 1)
  {
    hide Literal;
    Stuck(p, t, pi, ti);
    MarchedBack(p, t, sp + 1, st, ti - st);
    assert Later(p[sp + 1..], t, st) <==> Later(p[sp + 1..], t, st + 1);
  }

  lemma StandEnd(p: Text, t: Text, pi: nat, star: Option<nat>, st: nat)
    requires Standing(p, t, pi, |t|, star, st)
    ensures Literal(p, t) <==> Literal(p[pi..], [])
  {
    hide Literal, Marched;
    assert t[|t|..] == [];
    match star
    case None =>
    case Some(sp) =>
      assert sp + 1 + (|t| - st) == pi;
      MarchedBack(p, t, sp + 1, st, |t| - st);
      if Later(p[sp + 1..], t, st) {
        var k :| st <= k <= |t| && Literal(p[sp + 1..], t[k..]);
        Overtake(p, t, sp + 1, st, |t| - st, k);
        var q :| |t| <= q <= |t| && Literal(p[pi..], t[q..]);
      }
  }

  /** `glob_match` decides `Literal` for every pattern and text. */
  method GlobMatch(p: Text, t: Text) returns (r: bool)
    ensures r == Literal(p, t)
  {
    hide Literal, Standing;
    var pi, ti, st := 0, 0, 0;
    var star: Option<nat> := None;
    assert Standing(p, t, pi, ti, star, st) by { StandStart(p, t); }
    while ti < |t|
      invariant 0 <= pi <= |p| && 0 <= ti <= |t| && st >= 0 && Standing(p, t, pi, ti, star, st)
      decreases if star.Some? then |p| - star.value else |p| + 1, |t| - st, |p| - pi
    {
      StandFacts(p, t, pi, ti, star, st);
      if pi < |p| && (p[pi] == QUESTION || p[pi] == t[ti]) {
        StandConsume(p, t, pi, ti, star, st);
        pi, ti := pi + 1, ti + 1;
      } else if pi < |p| && p[pi] == STAR {
        StandStar(p, t, pi, ti, star, st);
        star, st := Some(pi), ti;
        pi := pi + 1;
      } else if star.Some? {
        StandBack(p, t, pi, ti, star.value, st);
        pi := star.value + 1;
        st := st + 1;
        ti := st;
      } else {
        assert !Literal(p, t) by { StandStuck(p, t, pi, ti, st); }
        return false;
      }
    }
    StandEnd(p, t, pi, star, st);
    while pi < |p| && p[pi] == STAR
      invariant 0 <= pi <= |p| && (Literal(p, t) <==> Literal(p[pi..], []))
    {
      TrailingStar(p, pi);
      pi := pi + 1;
    }
    assert Literal(p[pi..], []) <==> pi == |p| by { NothingLeft(p, pi); }
    return pi == |p|;
  }

  lemma StandStart(p: Text, t: Text)
    ensures Standing(p, t, 0, 0, None, 0)
  {
    assert p[0..] == p && t[0..] == t;
  }

  lemma StandFacts(p: Text, t: Text, pi: nat, ti: nat, star: Option<nat>, st: nat)
    requires Standing(p, t, pi, ti, star, st)
    ensures st <= ti && (star.Some? ==> star.value < pi)
  {
  }

  lemma StandStuck(p: Text, t: Text, pi: nat, ti: nat, st: nat)
    requires Standing(p, t, pi, ti, None, st) && ti < |t|
    requires pi < |p| ==> !Consumes(p[pi], t[ti]) && p[pi] != STAR
    ensures !Literal(p, t)
  {
    Stuck(p, t, pi, ti);
  }

  lemma TrailingStar(p: Text, pi: nat)
    requires pi < |p| && p[pi] == STAR
    ensures Literal(p[pi..], []) <==> Literal(p[pi + 1..], [])
  {
    var none: Text := [];
    assert p[pi..][1..] == p[pi + 1..];
    assert none[0..] == none;
  }

  lemma NothingLeft(p: Text, pi: nat)
    requires pi <= |p| && (pi < |p| ==> p[pi] != STAR)
    ensures Literal(p[pi..], []) <==> pi == |p|
  {
  }

  // ----- when the loop decides what a glob means -----

  /** The loop never accepts a text the glob does not stand for. */
  lemma {:induction false} LiteralMeans(p: Text, t: Text)
    requires Literal(p, t)
    ensures Means(p, t)
    decreases |p|
  {
    if p != [] {
      if t != [] && Consumes(p[0], t[0]) {
        LiteralMeans(p[1..], t[1..]);
      } else {
        var k :| 0 <= k <= |t| && Literal(p[1..], t[k..]);
        LiteralMeans(p[1..], t[k..]);
      }
    }
  }

  /** For a text without a star byte the loop accepts everything the glob stands
      for, although it only ever goes back to the last star. */
  lemma {:induction false} MeansLiteral(p: Text, t: Text)
    requires STAR !in t && Means(p, t)
    ensures Literal(p, t)
    decreases |p|
  {
    if p != [] {
      if p[0] == STAR {
        var k :| 0 <= k <= |t| && Means(p[1..], t[k..]);
        MeansLiteral(p[1..], t[k..]);
      } else {
        MeansLiteral(p[1..], t[1..]);
      }
    }
  }

  lemma {:induction false} NoStarPattern(p: Text, t: Text)
    requires STAR !in p
    ensures Literal(p, t) <==> Means(p, t)
    ensures Literal(p, t) ==> |p| == |t|
    decreases |p|
  {
    if p != [] && t != [] { NoStarPattern(p[1..], t[1..]); }
  }

  ghost predicate Aligned(a: Text, b: Text) {
    |a| == |b| && forall i :: 0 <= i < |a| ==> Consumes(a[i], b[i])
  }

  /** An aligned beginning is consumed byte by byte. */
  lemma {:induction false} AlignedStart(a: Text, b: Text, p: Text, t: Text)
    requires Aligned(a, b)
    ensures Literal(a + p, b + t) <==> Literal(p, t)
    ensures Means(p, t) ==> Means(a + p, b + t)
    decreases |a|
  {
    if a == [] {
      assert a + p == p && b + t == t;
    } else {
      assert (a + p)[1..] == a[1..] + p && (b + t)[1..] == b[1..] + t;
      assert Consumes(a[0], b[0]);
      AlignedStart(a[1..], b[1..], p, t);
    }
  }

  lemma {:induction false} SelfMeans(p: Text)
    ensures Means(p, p)
  {
    if p != [] { SelfMeans(p[1..]); }
  }

  function Questions(n: nat): (q: Text)
    ensures |q| == n && forall i :: 0 <= i < n ==> q[i] == QUESTION
  {
    seq(n, _ => QUESTION)
  }

  /** The shortest disagreement: `*` does not match the text `*a`. */
  lemma StarMissesStar()
    ensures Means([STAR], [STAR, 97]) && !Literal([STAR], [STAR, 97])
  {
    var t: Text := [STAR, 97];
    var p: Text := [STAR];
    assert t[2..] == [] && p[1..] == [] && t[1..] == [97];
    assert Means(p[1..], t[2..]);
  }

  /** For every text: the loop agrees with the meaning of all globs exactly when the
      text has no star byte. */
  lemma TextExact(t: Text)
    ensures (forall p: Text :: Literal(p, t) <==> Means(p, t)) <==> STAR !in t
  {
    if STAR !in t {
      forall p: Text ensures Literal(p, t) <==> Means(p, t) {
        if Literal(p, t) { LiteralMeans(p, t); }
        if Means(p, t) { MeansLiteral(p, t); }
      }
    } else {
      var i :| 0 <= i < |t| && t[i] == STAR;
      var u, v := t[..i], t[i..];
      var w := Questions(|v|);
      var p := Questions(i) + ([STAR] + w);
      assert t == u + v;
      assert Aligned(Questions(i), u);
      AlignedStart(Questions(i), u, [STAR] + w, v);
      StarThenQuestions(v);
      assert Means(p, t) && !Literal(p, t);
    }
  }

  lemma StarThenQuestions(v: Text)
    requires v != [] && v[0] == STAR
    ensures Means([STAR] + Questions(|v|), v) && !Literal([STAR] + Questions(|v|), v)
  {
    var w := Questions(|v|);
    var p := [STAR] + w;
    assert p[1..] == w && v[0..] == v;
    assert w + [] == w && v + [] == v;
    assert Aligned(w, v);
    AlignedStart(w, v, [], []);
    NoStarPattern(w, v[1..]);
    assert Means(p[1..], v[0..]);
  }

  /** For every glob: the loop agrees with its meaning on all texts exactly when it has
      no star. */
  lemma PatternExact(p: Text)
    ensures (forall t: Text :: Literal(p, t) <==> Means(p, t)) <==> STAR !in p
  {
    if STAR !in p {
      forall t: Text ensures Literal(p, t) <==> Means(p, t) {
        NoStarPattern(p, t);
      }
    } else {
      var i := LastStarOf(p);
      var u, v := p[..i], p[i + 1..];
      var t := u + ([STAR] + ([STAR] + v));
      assert p == u + ([STAR] + v);
      assert Aligned(u, u);
      AlignedStart(u, u, [STAR] + v, [STAR] + ([STAR] + v));
      TwoStars(v);
      assert Means(p, t) && !Literal(p, t);
    }
  }

  lemma TwoStars(v: Text)
    requires STAR !in v
    ensures Means([STAR] + v, [STAR] + ([STAR] + v)) && !Literal([STAR] + v, [STAR] + ([STAR] + v))
  {
    var p := [STAR] + v;
    var t := [STAR] + ([STAR] + v);
    assert p[1..] == v && t[2..] == v && t[1..] == [STAR] + v;
    SelfMeans(v);
    assert Means(p[1..], t[2..]);
    NoStarPattern(v, t[1..]);
  }

  lemma {:induction false} LastStarOf(p: Text) returns (i: nat)
    requires STAR in p
    ensures i < |p| && p[i] == STAR && STAR !in p[i + 1..]
  {
    var n := |p| - 1;
    if p[n] == STAR {
      i := n;
    } else {
      i := LastStarOf(p[..n]);
      assert p[i + 1..] == p[..n][i + 1..] + [p[n]];
    }
  }
}
