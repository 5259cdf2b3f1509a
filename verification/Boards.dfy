/// Component resolution: a depth-first walk that lists dependencies before dependents and
/// tolerates cycles, and the worklist that derives the graph it walks.
module Boards {
  import opened Wrappers
  import opened Names

  type Deps = map<Name, seq<Name>>

  function DependsOf(graph: Deps, name: Name): seq<Name> {
    if name in graph then graph[name] else []
  }

  // ------------------------------------------------------------------------
  // The dependency relation
  // ------------------------------------------------------------------------

  predicate Edge(graph: Deps, universe: set<Name>, u: Name, v: Name) {
    v in universe && v in DependsOf(graph, u)
  }

  ghost predicate IsPath(graph: Deps, universe: set<Name>, p: seq<Name>) {
    p != [] && forall i :: 0 <= i < |p| - 1 ==> Edge(graph, universe, p[i], p[i + 1])
  }

  ghost predicate Joins(graph: Deps, universe: set<Name>, p: seq<Name>, u: Name, v: Name) {
    IsPath(graph, universe, p) && p[0] == u && p[|p| - 1] == v
  }

  /// `v` is reached from `u` by following dependencies inside the universe, possibly none.
  ghost predicate Reach(graph: Deps, universe: set<Name>, u: Name, v: Name) {
    exists p :: Joins(graph, universe, p, u, v)
  }

  lemma ReachSelf(graph: Deps, universe: set<Name>, u: Name)
    ensures Reach(graph, universe, u, u)
  {
    assert Joins(graph, universe, [u], u, u);
  }

  lemma ReachThenEdge(graph: Deps, universe: set<Name>, u: Name, v: Name, w: Name)
    requires Reach(graph, universe, u, v) && Edge(graph, universe, v, w)
    ensures Reach(graph, universe, u, w)
  {
    var p :| Joins(graph, universe, p, u, v);
    assert Joins(graph, universe, p + [w], u, w);
  }

  lemma {:induction false} ReachAlong(graph: Deps, universe: set<Name>, p: seq<Name>, u: Name, v: Name, w: Name)
    requires Reach(graph, universe, u, v) && Joins(graph, universe, p, v, w)
    ensures Reach(graph, universe, u, w)
  {
    if |p| > 1 {
      var q := p[..|p| - 1];
      assert Joins(graph, universe, q, v, q[|q| - 1]);
      ReachAlong(graph, universe, q, u, v, q[|q| - 1]);
      assert Edge(graph, universe, p[|p| - 2], p[|p| - 2 + 1]);
      ReachThenEdge(graph, universe, u, q[|q| - 1], w);
    }
  }

  lemma ReachTransitive(graph: Deps, universe: set<Name>, u: Name, v: Name, w: Name)
    requires Reach(graph, universe, u, v) && Reach(graph, universe, v, w)
    ensures Reach(graph, universe, u, w)
  {
    var p :| Joins(graph, universe, p, v, w);
    ReachAlong(graph, universe, p, u, v, w);
  }

  ghost predicate ClosedUnderDeps(graph: Deps, universe: set<Name>, s: set<Name>) {
    forall u, v :: u in s && Edge(graph, universe, u, v) ==> v in s
  }

  lemma {:induction false} PathStaysInside(graph: Deps, universe: set<Name>, s: set<Name>, p: seq<Name>)
    requires ClosedUnderDeps(graph, universe, s) && IsPath(graph, universe, p) && p[0] in s
    ensures p[|p| - 1] in s
  {
    if |p| > 1 {
      PathStaysInside(graph, universe, s, p[..|p| - 1]);
      assert Edge(graph, universe, p[|p| - 2], p[|p| - 2 + 1]);
    }
  }

  lemma ReachStaysInside(graph: Deps, universe: set<Name>, s: set<Name>, u: Name, v: Name)
    requires ClosedUnderDeps(graph, universe, s) && u in s && Reach(graph, universe, u, v)
    ensures v in s
  {
    var p :| Joins(graph, universe, p, u, v);
    PathStaysInside(graph, universe, s, p);
  }

  // ------------------------------------------------------------------------
  // The depth-first walk as a function
  // ------------------------------------------------------------------------

  datatype Trail = Trail(seen: set<Name>, resolved: seq<Name>)

  function Visit(graph: Deps, universe: set<Name>, name: Name, t: Trail): (r: Trail)
    requires name in universe && t.seen <= universe
    ensures t.seen <= r.seen <= universe && name in r.seen
    decreases universe - t.seen, 0
  {
    if name in t.seen then t
    else
      var below := VisitAll(graph, universe, Sorted(DependsOf(graph, name)), Trail(t.seen + {name}, t.resolved));
      Trail(below.seen, below.resolved + [name])
  }

  /// Visit the names that belong to the universe, in the given order.
  function VisitAll(graph: Deps, universe: set<Name>, names: seq<Name>, t: Trail): (r: Trail)
    requires t.seen <= universe
    ensures t.seen <= r.seen <= universe
    decreases universe - t.seen, |names|
  {
    if names == [] then t
    else
      var next := if names[0] in universe then Visit(graph, universe, names[0], t) else t;
      VisitAll(graph, universe, names[1..], next)
  }

  // ------------------------------------------------------------------------
  // The invariant of the walk
  // ------------------------------------------------------------------------

  ghost predicate NoDup(s: seq<Name>) {
    forall i, j :: 0 <= i < j < |s| ==> s[i] != s[j]
  }

  ghost function Elems(s: seq<Name>): set<Name> {
    set x | x in s
  }

  /// A dependency stands before its dependent unless the two are in a cycle.
  ghost predicate DependencyFirst(graph: Deps, universe: set<Name>, order: seq<Name>, i: nat, v: Name)
    requires i < |order|
  {
    v in order[..i] || Reach(graph, universe, v, order[i])
  }

  ghost predicate Ordered(graph: Deps, universe: set<Name>, order: seq<Name>) {
    forall i: nat, v :: i < |order| && Edge(graph, universe, order[i], v) ==> DependencyFirst(graph, universe, order, i, v)
  }

  /// Seen names are either finished (listed) or still open, that is, ancestors of the current visit.
  ghost predicate Coherent(graph: Deps, universe: set<Name>, t: Trail, open: set<Name>) {
    && t.seen <= universe && t.seen == Elems(t.resolved) + open && open !! Elems(t.resolved)
    && NoDup(t.resolved)
    && Ordered(graph, universe, t.resolved)
    && (forall u, v :: u in t.resolved && Edge(graph, universe, u, v) ==> v in t.seen)
  }

  ghost predicate AllReach(graph: Deps, universe: set<Name>, open: set<Name>, v: Name) {
    forall g :: g in open ==> Reach(graph, universe, g, v)
  }

  lemma {:induction false} VisitKeeps(graph: Deps, universe: set<Name>, name: Name, t: Trail, open: set<Name>)
    requires name in universe && Coherent(graph, universe, t, open) && AllReach(graph, universe, open, name)
    ensures var r := Visit(graph, universe, name, t);
            && Coherent(graph, universe, r, open)
            && forall x :: x in r.seen && x !in t.seen ==> Reach(graph, universe, name, x)
    decreases universe - t.seen, 0
  {
    if name !in t.seen {
      var deps, start := Sorted(DependsOf(graph, name)), Trail(t.seen + {name}, t.resolved);
      SortedSameNames(DependsOf(graph, name));
      forall d | d in deps && d in universe ensures AllReach(graph, universe, open + {name}, d) && Reach(graph, universe, name, d) {
        DepReached(graph, universe, open, name, d);
      }
      VisitAllKeeps(graph, universe, deps, start, open + {name});
      var below := VisitAll(graph, universe, deps, start);
      FinishKeeps(graph, universe, below, open, name);
      forall x | x in below.seen && x !in t.seen ensures Reach(graph, universe, name, x) {
        if x == name {
          ReachSelf(graph, universe, name);
        } else {
          var d :| d in deps && d in universe && Reach(graph, universe, d, x);
          ReachTransitive(graph, universe, name, d, x);
        }
      }
    }
  }

  lemma DepReached(graph: Deps, universe: set<Name>, open: set<Name>, name: Name, d: Name)
    requires Edge(graph, universe, name, d) && AllReach(graph, universe, open, name)
    ensures AllReach(graph, universe, open + {name}, d) && Reach(graph, universe, name, d)
  {
    ReachSelf(graph, universe, name);
    forall g | g in open + {name} ensures Reach(graph, universe, g, d) {
      ReachThenEdge(graph, universe, g, name, d);
    }
  }

  /// Closing the current visit: everything it depends on is seen, so is listed already or is an
  /// ancestor, which reaches it.
  lemma FinishKeeps(graph: Deps, universe: set<Name>, below: Trail, open: set<Name>, name: Name)
    requires Coherent(graph, universe, below, open + {name}) && name !in open
    requires AllReach(graph, universe, open, name)
    requires forall v :: Edge(graph, universe, name, v) ==> v in below.seen
    ensures Coherent(graph, universe, Trail(below.seen, below.resolved + [name]), open)
  {
    var order := below.resolved + [name];
    assert Elems(order) == Elems(below.resolved) + {name};
    forall i: nat, v | i < |order| && Edge(graph, universe, order[i], v)
      ensures DependencyFirst(graph, universe, order, i, v)
    {
      if i < |below.resolved| {
        assert DependencyFirst(graph, universe, below.resolved, i, v);
        assert order[..i] == below.resolved[..i];
      } else {
        assert order[..i] == below.resolved;
        ReachSelf(graph, universe, name);
        assert v in Elems(below.resolved) || v in open + {name};
      }
    }
  }

  lemma {:induction false} VisitAllKeeps(graph: Deps, universe: set<Name>, names: seq<Name>, t: Trail, open: set<Name>)
    requires Coherent(graph, universe, t, open)
    requires forall d :: d in names && d in universe ==> AllReach(graph, universe, open, d)
    ensures var r := VisitAll(graph, universe, names, t);
            && Coherent(graph, universe, r, open)
            && (forall d :: d in names && d in universe ==> d in r.seen)
            && forall x :: x in r.seen && x !in t.seen ==>
                 exists d :: d in names && d in universe && Reach(graph, universe, d, x)
    decreases universe - t.seen, |names|
  {
    if names != [] {
      var next := t;
      if names[0] in universe {
        VisitKeeps(graph, universe, names[0], t, open);
        next := Visit(graph, universe, names[0], t);
      }
      VisitAllKeeps(graph, universe, names[1..], next, open);
      assert forall d :: d in names ==> d == names[0] || d in names[1..];
      assert forall d :: d in names[1..] ==> d in names;
    }
  }

  // ------------------------------------------------------------------------
  // resolve_transitive
  // ------------------------------------------------------------------------

  const START := Trail({}, [])

  /// The first name that is not in the universe.
  function FirstUnknown(names: seq<Name>, universe: set<Name>): (r: Option<Name>)
    ensures r.None? <==> forall x :: x in names ==> x in universe
    ensures r.Some? ==> r.value in names && r.value !in universe
  {
    if names == [] then None
    else if names[0] !in universe then Some(names[0])
    else FirstUnknown(names[1..], universe)
  }

  function Resolve(requested: seq<Name>, graph: Deps, universe: set<Name>): Result<seq<Name>, Name> {
    var unknown := FirstUnknown(Sorted(requested), universe);
    if unknown.Some? then Failure(unknown.value)
    else Success(VisitAll(graph, universe, Sorted(requested), START).resolved)
  }

  /// Names reached from some requested name.
  ghost predicate Needed(requested: seq<Name>, graph: Deps, universe: set<Name>, x: Name) {
    exists r :: r in requested && r in universe && Reach(graph, universe, r, x)
  }

  /// The only failure is a requested name outside the universe.
  lemma ResolveFailsIff(requested: seq<Name>, graph: Deps, universe: set<Name>)
    ensures Resolve(requested, graph, universe).Success? <==> forall r :: r in requested ==> r in universe
    ensures Resolve(requested, graph, universe).Failure? ==>
              var bad := Resolve(requested, graph, universe).error; bad in requested && bad !in universe
  {
    SortedSameNames(requested);
  }

  ghost predicate UnknownRequested(requested: seq<Name>, universe: set<Name>) {
    exists r :: r in requested && r !in universe
  }

  predicate DependsOutside(graph: Deps, universe: set<Name>, x: Name, d: Name) {
    d in DependsOf(graph, x) && d !in universe
  }

  /// A needed name depends on a name outside the universe.
  ghost predicate UnknownDependency(requested: seq<Name>, graph: Deps, universe: set<Name>) {
    exists x, d :: Needed(requested, graph, universe, x) && DependsOutside(graph, universe, x, d)
  }

  /// What the docstring promises: an error exactly when a requested or depended-on name is
  /// not in the universe.
  ghost predicate AsDocumented(requested: seq<Name>, graph: Deps, universe: set<Name>) {
    Resolve(requested, graph, universe).Failure? <==>
      UnknownRequested(requested, universe) || UnknownDependency(requested, graph, universe)
  }

  /// The docstring holds exactly when a requested name is unknown or no needed name depends
  /// outside the universe.
  lemma AsDocumentedIff(requested: seq<Name>, graph: Deps, universe: set<Name>)
    ensures AsDocumented(requested, graph, universe) <==>
            UnknownRequested(requested, universe) || !UnknownDependency(requested, graph, universe)
  {
    ResolveFailsIff(requested, graph, universe);
  }

  /// A component that depends on an unknown name alone: it resolves, to itself.
  lemma UnknownDependencyResolves(name: Name, unknown: Name)
    requires name != unknown
    ensures var graph: Deps := map[name := [unknown]];
            && Resolve([name], graph, {name}) == Success([name])
            && UnknownDependency([name], graph, {name})
            && !AsDocumented([name], graph, {name})
  {
    var graph: Deps := map[name := [unknown]];
    ReachSelf(graph, {name}, name);
    assert Needed([name], graph, {name}, name) by { assert name in [name]; }
    assert DependsOutside(graph, {name}, name, unknown);
    assert UnknownDependency([name], graph, {name});
    OnlyKnownVisited(graph, name, unknown);
    assert !UnknownRequested([name], {name});
  }

  lemma UnknownSkipped(graph: Deps, universe: set<Name>, unknown: Name, t: Trail)
    requires unknown !in universe && t.seen <= universe
    ensures VisitAll(graph, universe, [unknown], t) == t
  {
    assert [unknown][1..] == [];
    assert VisitAll(graph, universe, [], t) == t;
  }

  lemma OnlyKnownVisited(graph: Deps, name: Name, unknown: Name)
    requires name != unknown && graph == map[name := [unknown]]
    ensures Resolve([name], graph, {name}) == Success([name])
  {
    SortedOne(name);
    SortedOne(unknown);
    assert START.seen + {name} == {name};
    UnknownSkipped(graph, {name}, unknown, Trail({name}, []));
    var one := Visit(graph, {name}, name, START);
    assert one == Trail({name}, [name]);
    assert [name][1..] == [];
    assert VisitAll(graph, {name}, [], one) == one;
    assert VisitAll(graph, {name}, [name], START) == one;
  }

  /// On success: no duplicates, exactly the needed names, and for every edge u -> v between
  /// listed names, v is listed, and before u unless u is also reached from v.
  lemma ResolveIsDependencyOrder(requested: seq<Name>, graph: Deps, universe: set<Name>)
    requires Resolve(requested, graph, universe).Success?
    ensures var order := Resolve(requested, graph, universe).value;
            && NoDup(order)
            && (forall x :: x in order <==> Needed(requested, graph, universe, x))
            && ClosedUnderDeps(graph, universe, Elems(order))
            && Ordered(graph, universe, order)
  {
    SortedSameNames(requested);
    var names := Sorted(requested);
    VisitAllKeeps(graph, universe, names, START, {});
    var r := VisitAll(graph, universe, names, START);
    forall x ensures x in r.resolved <==> Needed(requested, graph, universe, x) {
      if x in r.resolved {
        assert x in r.seen;
        var d :| d in names && d in universe && Reach(graph, universe, d, x);
      }
      if Needed(requested, graph, universe, x) {
        var d :| d in requested && d in universe && Reach(graph, universe, d, x);
        assert d in r.seen;
        ReachStaysInside(graph, universe, Elems(r.resolved), d, x);
      }
    }
  }

  ghost predicate Acyclic(graph: Deps, universe: set<Name>) {
    forall u, v :: Edge(graph, universe, u, v) ==> !Reach(graph, universe, v, u)
  }

  /// Without cycles every dependency is listed strictly before its dependent.
  lemma AcyclicIsStrict(requested: seq<Name>, graph: Deps, universe: set<Name>)
    requires Resolve(requested, graph, universe).Success? && Acyclic(graph, universe)
    ensures var order := Resolve(requested, graph, universe).value;
            forall i: nat, v :: i < |order| && Edge(graph, universe, order[i], v) ==> v in order[..i]
  {
    ResolveIsDependencyOrder(requested, graph, universe);
    var order := Resolve(requested, graph, universe).value;
    forall i: nat, v | i < |order| && Edge(graph, universe, order[i], v) ensures v in order[..i] {
      assert DependencyFirst(graph, universe, order, i, v);
    }
  }

  /// The same names and dependency lists up to reordering.
  ghost predicate Reordered(a: Deps, b: Deps) {
    a.Keys == b.Keys && forall n :: n in a ==> multiset(a[n]) == multiset(b[n])
  }

  lemma {:induction false} VisitForgetsOrder(a: Deps, b: Deps, universe: set<Name>, name: Name, t: Trail)
    requires Reordered(a, b) && name in universe && t.seen <= universe
    ensures Visit(a, universe, name, t) == Visit(b, universe, name, t)
    decreases universe - t.seen, 0
  {
    if name !in t.seen {
      SortedForgetsOrder(DependsOf(a, name), DependsOf(b, name));
      VisitAllForgetsOrder(a, b, universe, Sorted(DependsOf(a, name)), Trail(t.seen + {name}, t.resolved));
    }
  }

  lemma {:induction false} VisitAllForgetsOrder(a: Deps, b: Deps, universe: set<Name>, names: seq<Name>, t: Trail)
    requires Reordered(a, b) && t.seen <= universe
    ensures VisitAll(a, universe, names, t) == VisitAll(b, universe, names, t)
    decreases universe - t.seen, |names|
  {
    if names != [] {
      if names[0] in universe { VisitForgetsOrder(a, b, universe, names[0], t); }
      VisitAllForgetsOrder(a, b, universe, names[1..], if names[0] in universe then Visit(a, universe, names[0], t) else t);
    }
  }

  /// The result depends on what is requested and depended on, not on how it was listed.
  lemma ResolveForgetsOrder(requested: seq<Name>, requested': seq<Name>, a: Deps, b: Deps, universe: set<Name>)
    requires multiset(requested) == multiset(requested') && Reordered(a, b)
    ensures Resolve(requested, a, universe) == Resolve(requested', b, universe)
  {
    SortedForgetsOrder(requested, requested');
    VisitAllForgetsOrder(a, b, universe, Sorted(requested), START);
  }

  /// The recursive closure of resolve_transitive, with its two captured variables.
  class Resolver {
    const graph: Deps
    const universe: set<Name>
    var seen: set<Name>
    var resolved: seq<Name>

    function View(): Trail
      reads this
    {
      Trail(seen, resolved)
    }

    constructor (graph: Deps, universe: set<Name>)
      ensures this.graph == graph && this.universe == universe && View() == START
    {
      this.graph, this.universe := graph, universe;
      seen, resolved := {}, [];
    }

    /// None, or the unknown name the visit stumbled on.
    method VisitName(name: Name) returns (unknown: Option<Name>)
      requires seen <= universe
      modifies this
      ensures seen <= universe
      ensures name in universe ==> unknown == None && View() == Visit(graph, universe, name, old(View()))
      ensures name !in universe ==> unknown == Some(name) && View() == old(View())
      decreases universe - seen
    {
      if name in seen {
        return None;
      }
      if name !in universe {
        return Some(name);
      }
      seen := seen + {name};
      var deps := Sorted(DependsOf(graph, name));
      ghost var start := View();
      for i := 0 to |deps|
        invariant start.seen <= seen <= universe
        invariant VisitAll(graph, universe, deps, start) == VisitAll(graph, universe, deps[i..], View())
      {
        assert deps[i..][1..] == deps[i + 1..];
        if deps[i] in universe {
          var _ := VisitName(deps[i]);
        }
      }
      resolved := resolved + [name];
      return None;
    }
  }

  method ResolveTransitive(requested: seq<Name>, graph: Deps, universe: set<Name>) returns (r: Result<seq<Name>, Name>)
    ensures r == Resolve(requested, graph, universe)
  {
    var resolver := new Resolver(graph, universe);
    var names := Sorted(requested);
    for i := 0 to |names|
      invariant resolver.graph == graph && resolver.universe == universe && resolver.seen <= universe
      invariant FirstUnknown(names, universe) == FirstUnknown(names[i..], universe)
      invariant VisitAll(graph, universe, names, START) == VisitAll(graph, universe, names[i..], resolver.View())
    {
      assert names[i..][1..] == names[i + 1..];
      var unknown := resolver.VisitName(names[i]);
      if unknown.Some? {
        return Failure(unknown.value);
      }
    }
    return Success(resolver.resolved);
  }
}
