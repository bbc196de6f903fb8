/** Start-up order of the services of a boot manifest
    (kernel/src/service_manager.rs, `startup_order` and `visit`). */
module Services {

  /** Each service name with the names it depends on. */
  type Manifest = map<string, seq<string>>

  datatype ManifestError =
    | UnknownDependency(service: string, dependsOn: string)
    | DependencyCycle(name: string)

  datatype Result<+T> = Ok(value: T) | Err(error: ManifestError)

  // ----- the dependency graph -----

  ghost predicate AllKnown(m: Manifest) {
    forall s, d :: s in m && d in m[s] ==> d in m
  }

  /** Every name depends directly on the next one. */
  ghost predicate Chain(m: Manifest, p: seq<string>) {
    forall i :: 0 <= i < |p| - 1 ==> p[i] in m && p[i + 1] in m[p[i]]
  }

  ghost predicate Loop(m: Manifest, name: string, p: seq<string>) {
    |p| >= 2 && p[0] == name && p[|p| - 1] == name && Chain(m, p)
  }

  ghost predicate OnCycle(m: Manifest, name: string) {
    exists p :: Loop(m, name, p)
  }

  ghost predicate Acyclic(m: Manifest) {
    forall name :: !OnCycle(m, name)
  }

  ghost predicate NoRepeats(s: seq<string>) {
    forall i, j :: 0 <= i < j < |s| ==> s[i] != s[j]
  }

  /** Dependencies come before the services that need them. */
  ghost predicate DepsFirst(m: Manifest, order: seq<string>) {
    forall i :: 0 <= i < |order| ==> order[i] in m && forall d :: d in m[order[i]] ==> d in order[..i]
  }

  /** Every service once, each after all it depends on. */
  ghost predicate StartOrder(m: Manifest, order: seq<string>) {
    NoRepeats(order) && DepsFirst(m, order) && forall s :: s in m <==> s in order
  }

  ghost function Position(order: seq<string>, s: string): (i: nat)
    requires s in order
    ensures i < |order| && order[i] == s
  {
    var i :| 0 <= i < |order| && order[i] == s;
    i
  }

  /** Along a chain of dependencies the position strictly falls. */
  lemma {:induction false} ChainFalls(m: Manifest, order: seq<string>, p: seq<string>)
    requires StartOrder(m, order) && |p| >= 2 && Chain(m, p)
    ensures p[0] in order && p[|p| - 1] in order && Position(order, p[|p| - 1]) < Position(order, p[0])
    decreases |p|
  {
    var i := Position(order, p[0]);
    assert p[1] in m[order[i]];
    var k :| 0 <= k < i && order[k] == p[1];
    assert Position(order, p[1]) == k;
    if |p| > 2 {
      assert Chain(m, p[1..]) by {
        forall j | 0 <= j < |p[1..]| - 1 ensures p[1..][j] in m && p[1..][j + 1] in m[p[1..][j]] {
          assert p[1..][j] == p[j + 1] && p[1..][j + 1] == p[j + 2];
        }
      }
      ChainFalls(m, order, p[1..]);
    }
  }

  /** A manifest that has a start-up order names only services and has no cycle. */
  lemma OrderMeansAcyclic(m: Manifest, order: seq<string>)
    requires StartOrder(m, order)
    ensures AllKnown(m) && Acyclic(m)
  {
    forall s, d | s in m && d in m[s] ensures d in m {
      var i := Position(order, s);
      assert d in order[..i];
    }
    forall name ensures !OnCycle(m, name) {
      if p :| Loop(m, name, p) { ChainFalls(m, order, p); }
    }
  }

  // ----- the sort -----

  ghost predicate Stacked(m: Manifest, visiting: set<string>, path: seq<string>) {
    (forall s :: s in visiting <==> s in path) && Chain(m, path) && NoRepeats(path)
  }

  /** What is done so far is the beginning of a start-up order. */
  ghost predicate Progress(m: Manifest, visiting: set<string>, visited: set<string>, order: seq<string>) {
    NoRepeats(order) && DepsFirst(m, order) && (forall s :: s in visited <==> s in order) && visiting !! visited
  }

  /** Meeting a name on the current path closes a cycle through it. */
  lemma CycleFound(m: Manifest, path: seq<string>, name: string)
    requires Chain(m, path + [name]) && name in path
    ensures OnCycle(m, name)
  {
    var i :| 0 <= i < |path| && path[i] == name;
    var all := path + [name];
    var p := all[i..];
    assert forall j :: 0 <= j < |p| ==> p[j] == all[i + j];
    assert Loop(m, name, p);
  }

  lemma LinkChain(m: Manifest, visiting: set<string>, path: seq<string>, d: string)
    requires Stacked(m, visiting, path) && path != [] && path[|path| - 1] in m && d in m[path[|path| - 1]]
    ensures Chain(m, path + [d])
  {
  }

  /** The two sets and the vector that the depth-first search passes down by reference. */
  class Sorter {
    const services: Manifest
    var visiting: set<string>
    var visited: set<string>
    var order: seq<string>

    ghost predicate Valid()
      reads this
    {
      Progress(services, visiting, visited, order)
    }

    constructor (m: Manifest)
      ensures Valid() && services == m && visiting == {} && order == []
    {
      services, visiting, visited, order := m, {}, {}, [];
    }

    /** `visit`, reached along `path`. */
    method Visit(name: string, ghost path: seq<string>) returns (r: Result<()>)
      requires Valid() && name in services && visiting <= services.Keys
      requires Stacked(services, visiting, path) && Chain(services, path + [name])
      modifies this
      ensures r.Ok? ==> Valid() && visiting == old(visiting) && old(visited) + {name} <= visited
      ensures r.Err? ==> Blames(services, r.error)
      decreases |services.Keys - visiting|, 1
    {
      hide Progress, Stacked, Chain, OnCycle;
      if name in visiting {
        StackHas(services, visiting, path, name);
        CycleFound(services, path, name);
        return Err(DependencyCycle(name));
      }
      if name in visited { return Ok(()); }
      Enter(services, visiting, visited, order, path, name);
      visiting := visiting + {name};
      r := VisitDeps(name, path + [name]);
      if r.Err? { return r; }
      Leave(services, visiting, visited, order, name);
      assert visiting - {name} == old(visiting);
      visiting := visiting - {name};
      visited := visited + {name};
      order := order + [name];
    }

    /** The loop of `visit` over what `name`, the end of `path`, depends on. */
    method VisitDeps(name: string, ghost path: seq<string>) returns (r: Result<()>)
      requires Valid() && name in services && visiting <= services.Keys
      requires Stacked(services, visiting, path) && path != [] && path[|path| - 1] == name
      modifies this
      ensures r.Ok? ==> Valid() && visiting == old(visiting) && old(visited) <= visited
      ensures r.Ok? ==> forall k :: 0 <= k < |services[name]| ==> services[name][k] in visited
      ensures r.Err? ==> Blames(services, r.error)
      decreases |services.Keys - visiting|, 2
    {
      hide Progress, Stacked, Chain, OnCycle;
      var deps := services[name];
      for i := 0 to |deps|
        invariant Valid() && visiting == old(visiting) && old(visited) <= visited
        invariant forall k :: 0 <= k < i ==> deps[k] in visited
      {
        if deps[i] !in services { return Err(UnknownDependency(name, deps[i])); }
        LinkChain(services, visiting, path, deps[i]);
        r := Visit(deps[i], path);
        if r.Err? { return r; }
      }
      return Ok(());
    }
  }

  lemma StackHas(m: Manifest, visiting: set<string>, path: seq<string>, name: string)
    requires Stacked(m, visiting, path)
    ensures name in visiting <==> name in path
  {
  }

  lemma Enter(
    m: Manifest, visiting: set<string>, visited: set<string>, order: seq<string>, path: seq<string>, name: string)
    requires Progress(m, visiting, visited, order) && Stacked(m, visiting, path) && Chain(m, path + [name])
    requires name in m && name !in visiting && name !in visited
    ensures Progress(m, visiting + {name}, visited, order) && Stacked(m, visiting + {name}, path + [name])
    ensures |m.Keys - (visiting + {name})| < |m.Keys - visiting|
  {
    assert name in m.Keys - visiting;
    Smaller(m.Keys - (visiting + {name}), m.Keys - visiting);
  }

  lemma Leave(m: Manifest, visiting: set<string>, visited: set<string>, order: seq<string>, name: string)
    requires Progress(m, visiting, visited, order) && name in visiting && name in m
    requires forall k :: 0 <= k < |m[name]| ==> m[name][k] in visited
    ensures Progress(m, visiting - {name}, visited + {name}, order + [name])
  {
    var after := order + [name];
    assert name !in order;
    forall i | 0 <= i < |after|
      ensures after[i] in m && forall d :: d in m[after[i]] ==> d in after[..i]
    {
      if i < |order| {
        assert after[..i] == order[..i];
      } else {
        assert after[..i] == order;
      }
    }
  }

  /** What an error says is true. */
  ghost predicate Blames(m: Manifest, e: ManifestError) {
    match e
    case UnknownDependency(s, d) => s in m && d in m[s] && d !in m
    case DependencyCycle(name) => OnCycle(m, name)
  }

  lemma Smaller(a: set<string>, b: set<string>)
    requires a < b
    ensures |a| < |b|
  {
    assert b == a + (b - a);
    assert b - a != {};
  }

  /** `startup_order`: an order exactly when every named dependency is a service
      and no service depends on itself, directly or not. `names` lists the keys of
      the manifest in whatever order its map keeps them. */
  method StartupOrder(m: Manifest, names: seq<string>) returns (r: Result<seq<string>>)
    requires forall s :: s in names <==> s in m
    ensures r.Ok? <==> AllKnown(m) && Acyclic(m)
    ensures r.Ok? ==> StartOrder(m, r.value)
    ensures r.Err? ==> Blames(m, r.error)
  {
    var sorter := new Sorter(m);
    for i := 0 to |names|
      invariant sorter.Valid() && sorter.visiting == {}
      invariant forall k :: 0 <= k < i ==> names[k] in sorter.visited
    {
      if names[i] !in sorter.visited {
        assert [] + [names[i]] == [names[i]];
        var step := sorter.Visit(names[i], []);
        if step.Err? { return Err(step.error); }
      }
    }
    OrderMeansAcyclic(m, sorter.order);
    return Ok(sorter.order);
  }
}
