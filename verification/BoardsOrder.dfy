/// The order of siblings in a resolution: requested names, and the dependencies of one name,
/// come in ascending order as far as dependencies leave the choice open.
module BoardsOrder {
  import opened Wrappers
  import opened Names
  import opened Boards

  // --- the walk only appends ------------------------------------------------------------

  lemma {:induction false} VisitAppends(graph: Deps, universe: set<Name>, name: Name, t: Trail)
    requires name in universe && t.seen <= universe
    ensures t.resolved <= Visit(graph, universe, name, t).resolved
    decreases universe - t.seen, 0
  {
    if name !in t.seen {
      VisitAllAppends(graph, universe, Sorted(DependsOf(graph, name)), Trail(t.seen + {name}, t.resolved));
    }
  }

  lemma {:induction false} VisitAllAppends(graph: Deps, universe: set<Name>, names: seq<Name>, t: Trail)
    requires t.seen <= universe
    ensures t.resolved <= VisitAll(graph, universe, names, t).resolved
    decreases universe - t.seen, |names|
  {
    if names != [] {
      if names[0] in universe {
        VisitAppends(graph, universe, names[0], t);
      }
      var next := if names[0] in universe then Visit(graph, universe, names[0], t) else t;
      VisitAllAppends(graph, universe, names[1..], next);
    }
  }

  lemma {:induction false} VisitAllSplits(graph: Deps, universe: set<Name>, a: seq<Name>, b: seq<Name>, t: Trail)
    requires t.seen <= universe
    ensures VisitAll(graph, universe, a + b, t) == VisitAll(graph, universe, b, VisitAll(graph, universe, a, t))
    decreases |a|
  {
    if a == [] {
      assert a + b == b;
    } else {
      var next := if a[0] in universe then Visit(graph, universe, a[0], t) else t;
      assert (a + b)[1..] == a[1..] + b;
      VisitAllSplits(graph, universe, a[1..], b, next);
    }
  }

  // --- requested names --------------------------------------------------------------------

  ghost predicate Precedes(order: seq<Name>, x: Name, y: Name) {
    exists i, j :: 0 <= i < j < |order| && order[i] == x && order[j] == y
  }

  lemma SortedSplit(requested: seq<Name>, x: Name) returns (a: seq<Name>, b: seq<Name>)
    requires x in requested
    ensures Sorted(requested) == a + b && x in a
    ensures forall r :: r in a ==> r in requested && Leq(r, x)
  {
    hide Leq;
    SortedSameNames(requested);
    var names := Sorted(requested);
    var i :| 0 <= i < |names| && names[i] == x;
    a, b := names[..i + 1], names[i + 1..];
    forall r | r in a ensures r in requested && Leq(r, x) {
      var j :| 0 <= j <= i && names[j] == r;
      LeqTotal(r, x);
    }
    assert a[i] == x;
  }

  lemma StartsCoherent(graph: Deps, universe: set<Name>, names: seq<Name>)
    ensures var t := VisitAll(graph, universe, names, START);
            && Elems(t.resolved) == t.seen
            && (forall d :: d in names && d in universe ==> d in t.seen)
            && forall x :: x in t.seen ==> exists d :: d in names && d in universe && Reach(graph, universe, d, x)
  {
    VisitAllKeeps(graph, universe, names, START, {});
  }

  lemma AppendedLater(before: seq<Name>, after: seq<Name>, x: Name, y: Name)
    requires before <= after && x in before && y in after && y !in before
    ensures Precedes(after, x, y)
  {
    var i :| 0 <= i < |before| && before[i] == x;
    var j :| 0 <= j < |after| && after[j] == y;
    assert after[..|before|] == before;
    assert after[i] == x && j >= |before|;
  }

  /// A requested name comes before every listed name that no requested name up to it needs.
  lemma RequestedAscend(requested: seq<Name>, graph: Deps, universe: set<Name>, x: Name, y: Name)
    requires Resolve(requested, graph, universe).Success?
    requires x in requested && y in Resolve(requested, graph, universe).value
    requires forall r :: r in requested && Leq(r, x) ==> !Reach(graph, universe, r, y)
    ensures Precedes(Resolve(requested, graph, universe).value, x, y)
  {
    ResolveFailsIff(requested, graph, universe);
    var a, b := SortedSplit(requested, x);
    StartsCoherent(graph, universe, a);
    var t := VisitAll(graph, universe, a, START);
    assert x in t.seen && x in Elems(t.resolved);
    assert y !in t.seen && y !in Elems(t.resolved);
    VisitAllSplits(graph, universe, a, b, START);
    VisitAllAppends(graph, universe, b, t);
    AppendedLater(t.resolved, Resolve(requested, graph, universe).value, x, y);
  }

  /// Requested names none of which needs another are listed in ascending order.
  lemma IndependentAscend(requested: seq<Name>, graph: Deps, universe: set<Name>, x: Name, y: Name)
    requires Resolve(requested, graph, universe).Success?
    requires x in requested && y in requested && x != y && Leq(x, y)
    requires forall r :: r in requested && r != y ==> !Reach(graph, universe, r, y)
    ensures Precedes(Resolve(requested, graph, universe).value, x, y)
  {
    ResolveFailsIff(requested, graph, universe);
    ReachSelf(graph, universe, y);
    ResolveIsDependencyOrder(requested, graph, universe);
    assert Needed(requested, graph, universe, y);
    forall r | r in requested && Leq(r, x) ensures !Reach(graph, universe, r, y) {
      LeqTotal(x, y);
    }
    RequestedAscend(requested, graph, universe, x, y);
  }

  // --- the dependencies of one name ---------------------------------------------------------

  lemma {:induction false} VisitIgnores(graph: Deps, universe: set<Name>, x: Name, t: Trail, u: Name)
    requires x in universe && u in universe && t.seen <= universe && u !in t.seen && !Reach(graph, universe, x, u)
    ensures var r := Visit(graph, universe, x, t);
            u !in r.seen && Visit(graph, universe, x, Trail(t.seen + {u}, t.resolved)) == Trail(r.seen + {u}, r.resolved)
    decreases universe - t.seen, 0
  {
    ReachSelf(graph, universe, u);
    if x !in t.seen {
      var deps := Sorted(DependsOf(graph, x));
      SortedSameNames(DependsOf(graph, x));
      forall d | d in deps && d in universe ensures !Reach(graph, universe, d, u) {
        if Reach(graph, universe, d, u) {
          EdgeThenReach(graph, universe, x, d, u);
        }
      }
      VisitAllIgnores(graph, universe, deps, Trail(t.seen + {x}, t.resolved), u);
      assert t.seen + {x} + {u} == t.seen + {u} + {x};
    }
  }

  lemma EdgeThenReach(graph: Deps, universe: set<Name>, x: Name, d: Name, u: Name)
    requires Edge(graph, universe, x, d) && Reach(graph, universe, d, u)
    ensures Reach(graph, universe, x, u)
  {
    ReachSelf(graph, universe, x);
    ReachThenEdge(graph, universe, x, x, d);
    ReachTransitive(graph, universe, x, d, u);
  }

  lemma {:induction false} VisitAllIgnores(graph: Deps, universe: set<Name>, names: seq<Name>, t: Trail, u: Name)
    requires u in universe && t.seen <= universe && u !in t.seen
    requires forall d :: d in names && d in universe ==> !Reach(graph, universe, d, u)
    ensures var r := VisitAll(graph, universe, names, t);
            u !in r.seen && VisitAll(graph, universe, names, Trail(t.seen + {u}, t.resolved)) == Trail(r.seen + {u}, r.resolved)
    decreases universe - t.seen, |names|
  {
    if names != [] {
      var next := t;
      if names[0] in universe {
        VisitIgnores(graph, universe, names[0], t, u);
        next := Visit(graph, universe, names[0], t);
      }
      VisitAllIgnores(graph, universe, names[1..], next, u);
    }
  }

  /// The names of the list that belong to the universe.
  function Known(names: seq<Name>, universe: set<Name>): seq<Name> {
    if names == [] then [] else (if names[0] in universe then [names[0]] else []) + Known(names[1..], universe)
  }

  lemma {:induction false} KnownFacts(names: seq<Name>, universe: set<Name>)
    ensures forall x :: x in Known(names, universe) <==> x in names && x in universe
    ensures forall x :: multiset(Known(names, universe))[x] == if x in universe then multiset(names)[x] else 0
  {
    if names != [] {
      KnownFacts(names[1..], universe);
      assert names == [names[0]] + names[1..];
    }
  }

  lemma {:induction false} KnownAscends(names: seq<Name>, universe: set<Name>)
    requires Ascending(names)
    ensures Ascending(Known(names, universe))
  {
    if names != [] {
      var rest := Known(names[1..], universe);
      KnownAscends(names[1..], universe);
      KnownFacts(names[1..], universe);
      forall j | 0 <= j < |rest| ensures Leq(names[0], rest[j]) {
        assert rest[j] in names[1..];
        var k :| 0 <= k < |names[1..]| && names[1..][k] == rest[j];
        assert names[k + 1] == rest[j];
      }
    }
  }

  lemma {:induction false} UnknownSkippedAll(graph: Deps, universe: set<Name>, names: seq<Name>, t: Trail)
    requires t.seen <= universe
    ensures VisitAll(graph, universe, Known(names, universe), t) == VisitAll(graph, universe, names, t)
    decreases |names|
  {
    if names != [] {
      var next := if names[0] in universe then Visit(graph, universe, names[0], t) else t;
      UnknownSkippedAll(graph, universe, names[1..], next);
      var rest := Known(names[1..], universe);
      if names[0] in universe {
        assert Known(names, universe) == [names[0]] + rest && ([names[0]] + rest)[1..] == rest;
      } else {
        assert Known(names, universe) == rest;
      }
    }
  }

  lemma KnownSorted(names: seq<Name>, universe: set<Name>)
    ensures Known(Sorted(names), universe) == Sorted(Known(names, universe))
  {
    var a, b := Known(Sorted(names), universe), Sorted(Known(names, universe));
    KnownFacts(names, universe);
    KnownFacts(Sorted(names), universe);
    KnownAscends(Sorted(names), universe);
    forall x ensures multiset(a)[x] == multiset(b)[x] {
    }
    assert multiset(a) == multiset(b);
    AscendingIsCanonical(a, b);
  }

  lemma KnownResolves(names: seq<Name>, graph: Deps, universe: set<Name>)
    ensures Resolve(Known(names, universe), graph, universe) == Success(VisitAll(graph, universe, Sorted(names), START).resolved)
  {
    KnownFacts(names, universe);
    ResolveFailsIff(Known(names, universe), graph, universe);
    KnownSorted(names, universe);
    UnknownSkippedAll(graph, universe, Sorted(names), START);
  }

  lemma OneName(name: Name, graph: Deps, universe: set<Name>)
    requires name in universe
    ensures Resolve([name], graph, universe) == Success(Visit(graph, universe, name, START).resolved)
  {
    ResolveFailsIff([name], graph, universe);
    SortedOne(name);
    assert [name][1..] == [];
    assert VisitAll(graph, universe, [name], START) == VisitAll(graph, universe, [], Visit(graph, universe, name, START));
  }

  /// A name on no cycle resolves to what its known dependencies resolve to as a request of
  /// their own, followed by the name.
  lemma DependenciesThenName(name: Name, graph: Deps, universe: set<Name>)
    requires name in universe
    requires forall d :: Edge(graph, universe, name, d) ==> !Reach(graph, universe, d, name)
    ensures var deps := Resolve(Known(DependsOf(graph, name), universe), graph, universe);
            deps.Success? && Resolve([name], graph, universe) == Success(deps.value + [name])
  {
    var names := Sorted(DependsOf(graph, name));
    SortedSameNames(DependsOf(graph, name));
    OneName(name, graph, universe);
    KnownResolves(DependsOf(graph, name), graph, universe);
    VisitAllIgnores(graph, universe, names, START, name);
    assert START.seen + {name} == {name};
  }
}
