/// The worklist that derives each needed component once, and its agreement with the
/// depth-first walk: both find exactly the least closed set of names.
module Composition {
  import opened Wrappers
  import opened Names
  import opened Boards

  function InUniverse(s: seq<Name>, universe: set<Name>): (r: seq<Name>)
    ensures forall x :: x in r <==> x in s && x in universe
  {
    if s == [] then []
    else
      assert s == [s[0]] + s[1..];
      (if s[0] in universe then [s[0]] else []) + InUniverse(s[1..], universe)
  }

  function NotYet(s: seq<Name>, visited: set<Name>): (r: seq<Name>)
    ensures forall x :: x in r <==> x in s && x !in visited
  {
    if s == [] then []
    else
      assert s == [s[0]] + s[1..];
      (if s[0] in visited then [] else [s[0]]) + NotYet(s[1..], visited)
  }

  /// entry["depends"] after the final filter.
  function Filtered(depends: seq<Name>, universe: set<Name>): (r: seq<Name>)
    ensures forall x :: x in r <==> x in depends && x in universe
  {
    SortedSameNames(InUniverse(depends, universe));
    Sorted(InUniverse(depends, universe))
  }

  /// The graph one would get by deriving the whole universe up front.
  ghost function Whole(derive: Name -> seq<Name>, universe: set<Name>): Deps {
    map n | n in universe :: Filtered(derive(n), universe)
  }

  // ------------------------------------------------------------------------
  // The worklist
  // ------------------------------------------------------------------------

  ghost predicate Pending(visited: set<Name>, frontier: seq<Name>, x: Name) {
    x in visited || x in frontier
  }

  /// Derived so far: exactly the visited names of the universe, each once.
  ghost predicate Booked(universe: set<Name>, derive: Name -> seq<Name>, graph: Deps, visited: set<Name>, derived: seq<Name>) {
    && graph.Keys == visited * universe
    && (forall n :: n in graph ==> graph[n] == derive(n))
    && NoDup(derived) && Elems(derived) == graph.Keys
  }

  /// Nothing is forgotten: requested names and raw dependencies of derived ones are pending.
  ghost predicate Covered(names: seq<Name>, derive: Name -> seq<Name>, keys: set<Name>, visited: set<Name>, frontier: seq<Name>) {
    && (forall r :: r in names ==> Pending(visited, frontier, r))
    && (forall u, v :: u in keys && v in derive(u) ==> Pending(visited, frontier, v))
  }

  /// Nothing is superfluous: pending names of the universe are needed.
  ghost predicate Justified(names: seq<Name>, whole: Deps, universe: set<Name>, visited: set<Name>, frontier: seq<Name>) {
    forall x :: x in universe && Pending(visited, frontier, x) ==> Needed(names, whole, universe, x)
  }

  ghost predicate Exploring(names: seq<Name>, universe: set<Name>, derive: Name -> seq<Name>,
                            graph: Deps, visited: set<Name>, frontier: seq<Name>, derived: seq<Name>) {
    && Booked(universe, derive, graph, visited, derived)
    && Covered(names, derive, graph.Keys, visited, frontier)
    && Justified(names, Whole(derive, universe), universe, visited, frontier)
  }

  lemma NeededStep(names: seq<Name>, universe: set<Name>, whole: Deps, u: Name, v: Name)
    requires Edge(whole, universe, u, v) && Needed(names, whole, universe, u)
    ensures Needed(names, whole, universe, v)
  {
    var r :| r in names && r in universe && Reach(whole, universe, r, u);
    ReachThenEdge(whole, universe, r, u, v);
  }

  lemma WholeEdges(derive: Name -> seq<Name>, universe: set<Name>, u: Name, v: Name)
    ensures Edge(Whole(derive, universe), universe, u, v) <==> u in universe && v in universe && v in derive(u)
  {}

  lemma NamesAreNeeded(names: seq<Name>, universe: set<Name>, whole: Deps)
    ensures Justified(names, whole, universe, {}, names)
  {
    forall x | x in universe && Pending({}, names, x) ensures Needed(names, whole, universe, x) {
      ReachSelf(whole, universe, x);
    }
  }

  lemma StartExploring(names: seq<Name>, universe: set<Name>, derive: Name -> seq<Name>)
    ensures Exploring(names, universe, derive, map[], {}, names, [])
  {
    NamesAreNeeded(names, universe, Whole(derive, universe));
  }

  lemma PendingAfterPop(visited: set<Name>, frontier: seq<Name>, more: seq<Name>, x: Name)
    requires frontier != []
    ensures var name, rest := frontier[|frontier| - 1], frontier[..|frontier| - 1];
            Pending(visited + {name}, rest + more, x) <==> Pending(visited, frontier, x) || x in more
  {
    assert frontier == frontier[..|frontier| - 1] + [frontier[|frontier| - 1]];
  }

  /// Popping a name already visited, or one outside the universe, loses nothing.
  lemma PopKeeps(names: seq<Name>, universe: set<Name>, derive: Name -> seq<Name>,
                 graph: Deps, visited: set<Name>, frontier: seq<Name>, derived: seq<Name>)
    requires Exploring(names, universe, derive, graph, visited, frontier, derived) && frontier != []
    requires frontier[|frontier| - 1] in visited || frontier[|frontier| - 1] !in universe
    ensures Exploring(names, universe, derive, graph, visited + {frontier[|frontier| - 1]}, frontier[..|frontier| - 1], derived)
  {
    var name, rest := frontier[|frontier| - 1], frontier[..|frontier| - 1];
    assert rest + [] == rest;
    forall x ensures Pending(visited + {name}, rest, x) <==> Pending(visited, frontier, x) {
      PendingAfterPop(visited, frontier, [], x);
    }
    assert (visited + {name}) * universe == visited * universe;
  }

  lemma BookOne(universe: set<Name>, derive: Name -> seq<Name>, graph: Deps, visited: set<Name>, derived: seq<Name>, name: Name)
    requires Booked(universe, derive, graph, visited, derived) && name !in visited && name in universe
    ensures Booked(universe, derive, graph[name := derive(name)], visited + {name}, derived + [name])
  {
    assert (graph[name := derive(name)]).Keys == graph.Keys + {name};
    assert (visited + {name}) * universe == visited * universe + {name};
    assert name !in Elems(derived);
    assert Elems(derived + [name]) == Elems(derived) + {name};
  }

  lemma CoverOne(names: seq<Name>, derive: Name -> seq<Name>, keys: set<Name>, visited: set<Name>, frontier: seq<Name>)
    requires Covered(names, derive, keys, visited, frontier) && frontier != []
    ensures var name := frontier[|frontier| - 1]; var seen := visited + {name};
            Covered(names, derive, keys + {name}, seen, frontier[..|frontier| - 1] + NotYet(derive(name), seen))
  {
    var name := frontier[|frontier| - 1];
    var seen := visited + {name};
    var more := NotYet(derive(name), seen);
    forall x | Pending(visited, frontier, x) || x in derive(name)
      ensures Pending(seen, frontier[..|frontier| - 1] + more, x)
    {
      PendingAfterPop(visited, frontier, more, x);
    }
  }

  lemma JustifyOne(names: seq<Name>, whole: Deps, universe: set<Name>, visited: set<Name>, frontier: seq<Name>, more: seq<Name>)
    requires Justified(names, whole, universe, visited, frontier) && frontier != [] && frontier[|frontier| - 1] in universe
    requires forall x :: x in more && x in universe ==> Edge(whole, universe, frontier[|frontier| - 1], x)
    ensures Justified(names, whole, universe, visited + {frontier[|frontier| - 1]}, frontier[..|frontier| - 1] + more)
  {
    var name := frontier[|frontier| - 1];
    assert Pending(visited, frontier, name);
    forall x | x in universe && Pending(visited + {name}, frontier[..|frontier| - 1] + more, x)
      ensures Needed(names, whole, universe, x)
    {
      PendingAfterPop(visited, frontier, more, x);
      if x in more { NeededStep(names, universe, whole, name, x); }
    }
  }

  lemma DeriveKeeps(names: seq<Name>, universe: set<Name>, derive: Name -> seq<Name>,
                    graph: Deps, visited: set<Name>, frontier: seq<Name>, derived: seq<Name>)
    requires Exploring(names, universe, derive, graph, visited, frontier, derived) && frontier != []
    requires frontier[|frontier| - 1] !in visited && frontier[|frontier| - 1] in universe
    ensures var name := frontier[|frontier| - 1]; var seen := visited + {name};
            Exploring(names, universe, derive, graph[name := derive(name)], seen,
                      frontier[..|frontier| - 1] + NotYet(derive(name), seen), derived + [name])
  {
    var name := frontier[|frontier| - 1];
    var more := NotYet(derive(name), visited + {name});
    BookOne(universe, derive, graph, visited, derived, name);
    CoverDerived(names, derive, graph, visited, frontier);
    JustifyDerived(names, universe, derive, visited, frontier, more);
  }

  lemma CoverDerived(names: seq<Name>, derive: Name -> seq<Name>, graph: Deps, visited: set<Name>, frontier: seq<Name>)
    requires Covered(names, derive, graph.Keys, visited, frontier) && frontier != []
    ensures var name := frontier[|frontier| - 1]; var seen := visited + {name};
            Covered(names, derive, graph[name := derive(name)].Keys, seen,
                    frontier[..|frontier| - 1] + NotYet(derive(name), seen))
  {
    var name := frontier[|frontier| - 1];
    CoverOne(names, derive, graph.Keys, visited, frontier);
    assert graph[name := derive(name)].Keys == graph.Keys + {name};
  }

  lemma JustifyDerived(names: seq<Name>, universe: set<Name>, derive: Name -> seq<Name>,
                       visited: set<Name>, frontier: seq<Name>, more: seq<Name>)
    requires Justified(names, Whole(derive, universe), universe, visited, frontier)
    requires frontier != [] && frontier[|frontier| - 1] in universe
    requires forall x :: x in more ==> x in derive(frontier[|frontier| - 1])
    ensures Justified(names, Whole(derive, universe), universe, visited + {frontier[|frontier| - 1]}, frontier[..|frontier| - 1] + more)
  {
    var name := frontier[|frontier| - 1];
    forall x | x in more && x in universe ensures Edge(Whole(derive, universe), universe, name, x) {
      WholeEdges(derive, universe, name, x);
    }
    JustifyOne(names, Whole(derive, universe), universe, visited, frontier, more);
  }

  /// `graph` holds exactly the needed names, each with its filtered dependencies.
  ghost predicate IsDerived(names: seq<Name>, universe: set<Name>, derive: Name -> seq<Name>, graph: Deps) {
    && (forall x :: x in graph <==> Needed(names, Whole(derive, universe), universe, x))
    && (forall n :: n in graph ==> n in universe && graph[n] == Filtered(derive(n), universe))
  }

  lemma DoneExploring(names: seq<Name>, universe: set<Name>, derive: Name -> seq<Name>,
                      graph: Deps, visited: set<Name>, derived: seq<Name>)
    requires Exploring(names, universe, derive, graph, visited, [], derived)
    ensures forall x :: x in graph <==> Needed(names, Whole(derive, universe), universe, x)
  {
    var whole := Whole(derive, universe);
    forall u, v | u in graph && Edge(whole, universe, u, v) ensures v in graph {
      WholeEdges(derive, universe, u, v);
      assert Pending(visited, [], v);
    }
    assert ClosedUnderDeps(whole, universe, graph.Keys);
    forall r | r in names && r in universe ensures r in graph {
      assert Pending(visited, [], r);
    }
    forall x ensures x in graph <==> Needed(names, whole, universe, x) {
      if x in graph { assert Pending(visited, [], x); }
      NeededStaysInside(names, whole, universe, graph.Keys, x);
    }
  }

  lemma NeededStaysInside(names: seq<Name>, whole: Deps, universe: set<Name>, s: set<Name>, x: Name)
    requires ClosedUnderDeps(whole, universe, s) && forall r :: r in names && r in universe ==> r in s
    ensures Needed(names, whole, universe, x) ==> x in s
  {
    if Needed(names, whole, universe, x) {
      var r :| r in names && r in universe && Reach(whole, universe, r, x);
      ReachStaysInside(whole, universe, s, r, x);
    }
  }

  /// One turn of the worklist.
  method Turn(ghost names: seq<Name>, universe: set<Name>, derive: Name -> seq<Name>,
              graph: Deps, visited: set<Name>, frontier: seq<Name>, ghost derived: seq<Name>)
    returns (graph': Deps, visited': set<Name>, frontier': seq<Name>, ghost derived': seq<Name>)
    requires Exploring(names, universe, derive, graph, visited, frontier, derived) && frontier != []
    ensures Exploring(names, universe, derive, graph', visited', frontier', derived')
    ensures universe - visited' < universe - visited || (universe - visited' == universe - visited && |frontier'| < |frontier|)
  {
    var name := frontier[|frontier| - 1];
    graph', visited', frontier', derived' := graph, visited, frontier[..|frontier| - 1], derived;
    if name in visited {
      PopKeeps(names, universe, derive, graph, visited, frontier, derived);
      assert visited + {name} == visited;
      return;
    }
    visited' := visited + {name};
    if name !in universe {
      PopKeeps(names, universe, derive, graph, visited, frontier, derived);
      assert universe - visited' == universe - visited;
      return;
    }
    DeriveKeeps(names, universe, derive, graph, visited, frontier, derived);
    graph' := graph[name := derive(name)];
    derived' := derived + [name];
    frontier' := frontier' + NotYet(derive(name), visited');
    assert name in universe - visited && name !in universe - visited';
  }

  /// The derive loop shared by build_graph and the composition resolver: LIFO worklist over raw
  /// dependencies, each component of the universe derived exactly once, then the filter.
  method DeriveClosure(names: seq<Name>, universe: set<Name>, derive: Name -> seq<Name>)
    returns (graph: Deps, ghost derived: seq<Name>)
    ensures IsDerived(names, universe, derive, graph)
    ensures NoDup(derived) && Elems(derived) == graph.Keys
  {
    var raw: Deps := map[];
    var frontier := names;
    var visited: set<Name> := {};
    derived := [];
    StartExploring(names, universe, derive);
    while frontier != []
      invariant Exploring(names, universe, derive, raw, visited, frontier, derived)
      decreases universe - visited, |frontier|
    {
      raw, visited, frontier, derived := Turn(names, universe, derive, raw, visited, frontier, derived);
    }
    graph := FilterAll(names, universe, derive, raw, visited, derived);
  }

  /// The filter pass over the raw graph, once the worklist is empty.
  method FilterAll(ghost names: seq<Name>, universe: set<Name>, ghost derive: Name -> seq<Name>, raw: Deps,
                   ghost visited: set<Name>, ghost derived: seq<Name>)
    returns (graph: Deps)
    requires Exploring(names, universe, derive, raw, visited, [], derived)
    ensures IsDerived(names, universe, derive, graph)
    ensures NoDup(derived) && Elems(derived) == graph.Keys
  {
    DoneExploring(names, universe, derive, raw, visited, derived);
    graph := map n | n in raw :: Filtered(raw[n], universe);
    KeysStay(raw, graph);
  }

  lemma KeysStay(raw: Deps, graph: Deps)
    requires forall n :: n in graph <==> n in raw
    ensures graph.Keys == raw.Keys
  {}

  // ------------------------------------------------------------------------
  // Agreement with the depth-first walk
  // ------------------------------------------------------------------------

  lemma DerivedEdges(names: seq<Name>, universe: set<Name>, derive: Name -> seq<Name>, graph: Deps, u: Name, v: Name)
    requires IsDerived(names, universe, derive, graph)
    ensures Edge(graph, universe, u, v) ==> u in graph && Edge(Whole(derive, universe), universe, u, v)
    ensures u in graph && Edge(Whole(derive, universe), universe, u, v) ==> Edge(graph, universe, u, v) && v in graph
  {
    WholeEdges(derive, universe, u, v);
    if u in graph && Edge(Whole(derive, universe), universe, u, v) {
      NeededStep(names, universe, Whole(derive, universe), u, v);
    }
  }

  /// `part` is `whole` cut down to a closed set of names.
  ghost predicate Restricts(part: Deps, whole: Deps, universe: set<Name>) {
    forall u, v :: Edge(part, universe, u, v) <==> u in part && v in part && Edge(whole, universe, u, v)
  }

  ghost predicate LeastClosed(names: seq<Name>, whole: Deps, universe: set<Name>, keys: set<Name>) {
    && ClosedUnderDeps(whole, universe, keys) && (forall r :: r in names ==> r in keys)
    && forall s: set<Name> :: ClosedUnderDeps(whole, universe, s) && (forall r :: r in names ==> r in s) ==> keys <= s
  }

  /// The needed names are the least closed set.
  lemma NeededIsLeastClosed(names: seq<Name>, universe: set<Name>, whole: Deps, keys: set<Name>)
    requires forall x :: x in keys <==> Needed(names, whole, universe, x)
    requires forall r :: r in names ==> r in universe
    ensures LeastClosed(names, whole, universe, keys)
  {
    forall u, v | u in keys && Edge(whole, universe, u, v) ensures v in keys {
      NeededStep(names, universe, whole, u, v);
    }
    forall r | r in names ensures r in keys {
      ReachSelf(whole, universe, r);
    }
    forall s: set<Name> | ClosedUnderDeps(whole, universe, s) && (forall r :: r in names ==> r in s) ensures keys <= s {
      forall x | x in keys ensures x in s { NeededStaysInside(names, whole, universe, s, x); }
    }
  }

  lemma DerivedRestricts(names: seq<Name>, universe: set<Name>, derive: Name -> seq<Name>, graph: Deps)
    requires IsDerived(names, universe, derive, graph) && forall r :: r in names ==> r in universe
    ensures Restricts(graph, Whole(derive, universe), universe)
    ensures LeastClosed(names, Whole(derive, universe), universe, graph.Keys)
  {
    hide Edge, Reach, Needed, LeastClosed;
    forall u, v ensures Edge(graph, universe, u, v) <==> u in graph && v in graph && Edge(Whole(derive, universe), universe, u, v) {
      DerivedEdges(names, universe, derive, graph, u, v);
    }
    NeededIsLeastClosed(names, universe, Whole(derive, universe), graph.Keys);
  }

  lemma WalkListsLeastClosed(names: seq<Name>, universe: set<Name>, whole: Deps, graph: Deps)
    requires Restricts(graph, whole, universe) && LeastClosed(names, whole, universe, graph.Keys)
    requires Resolve(names, graph, universe).Success? && forall r :: r in names ==> r in universe
    ensures Elems(Resolve(names, graph, universe).value) == graph.Keys
  {
    ResolveIsDependencyOrder(names, graph, universe);
    var order := Resolve(names, graph, universe).value;
    assert ClosedUnderDeps(graph, universe, graph.Keys);
    forall x | x in order ensures x in graph { NeededStaysInside(names, graph, universe, graph.Keys, x); }
    forall u, v | u in Elems(order) && Edge(whole, universe, u, v) ensures v in Elems(order) {
      assert Edge(graph, universe, u, v);
    }
    forall r | r in names ensures r in Elems(order) {
      ReachSelf(graph, universe, r);
      assert Needed(names, graph, universe, r);
    }
    assert graph.Keys <= Elems(order);
  }

  /// Keys of the derived graph, names listed by the walk, and the least set that contains the
  /// requested names and is closed under dependencies are one and the same.
  lemma WorklistAgreesWithWalk(names: seq<Name>, universe: set<Name>, derive: Name -> seq<Name>, graph: Deps)
    requires IsDerived(names, universe, derive, graph) && forall r :: r in names ==> r in universe
    ensures Resolve(names, graph, universe).Success?
    ensures Elems(Resolve(names, graph, universe).value) == graph.Keys
    ensures LeastClosed(names, Whole(derive, universe), universe, graph.Keys)
  {
    hide Resolve, Elems, LeastClosed, IsDerived, Restricts, Whole;
    ResolveFailsIff(names, graph, universe);
    DerivedRestricts(names, universe, derive, graph);
    WalkListsLeastClosed(names, universe, Whole(derive, universe), graph);
  }

  lemma PathInWhole(universe: set<Name>, whole: Deps, graph: Deps, u: Name, v: Name)
    requires Restricts(graph, whole, universe) && Reach(graph, universe, u, v)
    ensures Reach(whole, universe, u, v)
  {
    var p :| Joins(graph, universe, p, u, v);
    forall k | 0 <= k < |p| - 1 ensures Edge(whole, universe, p[k], p[k + 1]) {
      assert Edge(graph, universe, p[k], p[k + 1]);
    }
    assert Joins(whole, universe, p, u, v);
  }

  /// The lazily derived graph keeps the guarantee of the walk for the whole dependency relation:
  /// a dependency is listed before its dependent unless it depends back on it.
  lemma WalkOrdersWholeGraph(names: seq<Name>, universe: set<Name>, derive: Name -> seq<Name>, graph: Deps)
    requires IsDerived(names, universe, derive, graph) && forall r :: r in names ==> r in universe
    ensures Resolve(names, graph, universe).Success?
    ensures Ordered(Whole(derive, universe), universe, Resolve(names, graph, universe).value)
  {
    WorklistAgreesWithWalk(names, universe, derive, graph);
    DerivedRestricts(names, universe, derive, graph);
    ResolveIsDependencyOrder(names, graph, universe);
    OrderedInWhole(universe, Whole(derive, universe), graph, Resolve(names, graph, universe).value);
  }

  lemma OrderedInWhole(universe: set<Name>, whole: Deps, graph: Deps, order: seq<Name>)
    requires Restricts(graph, whole, universe) && ClosedUnderDeps(whole, universe, graph.Keys)
    requires Elems(order) == graph.Keys && Ordered(graph, universe, order)
    ensures Ordered(whole, universe, order)
  {
    forall i: nat, v | i < |order| && Edge(whole, universe, order[i], v) ensures DependencyFirst(whole, universe, order, i, v) {
      assert order[i] in Elems(order);
      assert Edge(graph, universe, order[i], v);
      assert DependencyFirst(graph, universe, order, i, v);
      if v !in order[..i] { PathInWhole(universe, whole, graph, v, order[i]); }
    }
  }

  datatype Board = Board(order: seq<Name>, components: Deps)

  /// boards.build_graph from the resolved component names on: unknown names are refused up front.
  method BuildGraph(requested: seq<Name>, universe: set<Name>, derive: Name -> seq<Name>) returns (r: Result<Board, Name>)
    ensures r.Success? <==> forall x :: x in requested ==> x in universe
    ensures r.Failure? ==> r == Failure(FirstUnknown(requested, universe).value)
    ensures r.Success? ==> IsDerived(requested, universe, derive, r.value.components)
    ensures r.Success? ==> Resolve(requested, r.value.components, universe) == Success(r.value.order)
  {
    for i := 0 to |requested|
      invariant FirstUnknown(requested, universe) == FirstUnknown(requested[i..], universe)
      invariant forall x :: x in requested[..i] ==> x in universe
    {
      assert requested[i..][1..] == requested[i + 1..];
      if requested[i] !in universe {
        return Failure(requested[i]);
      }
      assert requested[..i + 1] == requested[..i] + [requested[i]];
    }
    assert requested[..|requested|] == requested;
    var graph, _ := DeriveClosure(requested, universe, derive);
    WorklistAgreesWithWalk(requested, universe, derive, graph);
    var order := ResolveTransitive(requested, graph, universe);
    return Success(Board(order.value, graph));
  }

  /// composition.resolve_composition_with_graph: no check of its own, the walk refuses unknown names.
  method ResolveComposition(names: seq<Name>, universe: set<Name>, derive: Name -> seq<Name>) returns (r: Result<Board, Name>)
    ensures r.Success? <==> forall x :: x in names ==> x in universe
    ensures r.Failure? ==> r.error in names && r.error !in universe
    ensures r.Success? ==> IsDerived(names, universe, derive, r.value.components)
    ensures r.Success? ==> Resolve(names, r.value.components, universe) == Success(r.value.order)
  {
    var graph, _ := DeriveClosure(names, universe, derive);
    var order := ResolveTransitive(names, graph, universe);
    ResolveFailsIff(names, graph, universe);
    match order
    case Failure(unknown) => return Failure(unknown);
    case Success(listed) => return Success(Board(listed, graph));
  }
}
