/// Kahn's algorithm with a priority tie-break, over vertices 0 .. n-1.
module Kahn {
  import opened Wrappers

  /// (order or infinity, parse index): a missing order sorts after every order.
  datatype Key = Key(order: Option<int>, idx: nat)

  predicate KeyLess(a: Key, b: Key) {
    match (a.order, b.order)
    case (Some(x), None) => true
    case (None, Some(y)) => false
    case (None, None) => a.idx < b.idx
    case (Some(x), Some(y)) => x < y || (x == y && a.idx < b.idx)
  }

  /// `deps[v]` are the vertices that must precede `v`.
  datatype Graph = Graph(deps: seq<set<nat>>, keys: seq<Key>)

  ghost predicate ValidGraph(g: Graph) {
    && |g.keys| == |g.deps|
    && (forall v: nat, u: nat :: v < |g.deps| && u in g.deps[v] ==> u < |g.deps| && u != v)
    && (forall u, v :: 0 <= u < v < |g.deps| ==> g.keys[u].idx < g.keys[v].idx)
  }

  ghost function Elems(s: seq<nat>): set<nat> {
    set x | x in s
  }

  ghost predicate NoDup(s: seq<nat>) {
    forall i, j :: 0 <= i < j < |s| ==> s[i] != s[j]
  }

  /// `v` is unplaced and all it depends on is placed.
  ghost predicate Available(g: Graph, placed: set<nat>, v: nat) {
    v < |g.deps| && v !in placed && g.deps[v] <= placed
  }

  /// A topological order of some of the vertices, closed under dependencies.
  ghost predicate Topological(g: Graph, order: seq<nat>) {
    forall i :: 0 <= i < |order| ==> Available(g, Elems(order[..i]), order[i])
  }

  ghost predicate MinAvailable(g: Graph, placed: set<nat>, v: nat)
    requires ValidGraph(g)
  {
    && Available(g, placed, v)
    && forall u: nat :: Available(g, placed, u) ==> !KeyLess(g.keys[u], g.keys[v])
  }

  /// Every pick is the least available vertex.
  ghost predicate Greedy(g: Graph, order: seq<nat>)
    requires ValidGraph(g)
  {
    forall i :: 0 <= i < |order| ==> MinAvailable(g, Elems(order[..i]), order[i])
  }

  ghost predicate Complete(g: Graph, order: seq<nat>) {
    Topological(g, order) && |order| == |g.deps|
  }

  ghost predicate Stuck(g: Graph, placed: set<nat>) {
    forall v: nat :: !Available(g, placed, v)
  }

  /// A closed walk: each vertex depends on the next, the last on the first.
  ghost predicate IsCycle(g: Graph, c: seq<nat>) {
    && c != []
    && (forall i :: 0 <= i < |c| ==> c[i] < |g.deps|)
    && (forall i :: 0 <= i < |c| - 1 ==> c[i + 1] in g.deps[c[i]])
    && c[0] in g.deps[c[|c| - 1]]
  }

  ghost predicate Acyclic(g: Graph) {
    forall c :: !IsCycle(g, c)
  }

  // ------------------------------------------------------------------------
  // Counting
  // ------------------------------------------------------------------------

  lemma ElemsSnoc(s: seq<nat>, x: nat)
    ensures Elems(s + [x]) == Elems(s) + {x}
  {}

  lemma {:induction false} NoDupSize(s: seq<nat>)
    requires NoDup(s)
    ensures |Elems(s)| == |s|
  {
    if s != [] {
      var t := s[..|s| - 1];
      NoDupSize(t);
      assert s == t + [s[|s| - 1]];
      ElemsSnoc(t, s[|s| - 1]);
    }
  }

  ghost function Range(n: nat): (r: set<nat>)
    ensures |r| == n && forall x: nat :: x in r <==> x < n
  {
    if n == 0 then {} else Range(n - 1) + {n - 1}
  }

  lemma SubsetSize(a: set<nat>, b: set<nat>)
    requires a <= b
    ensures |a| <= |b|
    ensures |a| == |b| ==> a == b
  {
    assert b == a + (b - a);
    if |a| == |b| { assert |b - a| == 0; }
  }

  lemma TopologicalNoDup(g: Graph, order: seq<nat>)
    requires Topological(g, order)
    ensures NoDup(order) && Elems(order) <= Range(|g.deps|) && |order| <= |g.deps|
  {
    forall i, j | 0 <= i < j < |order| ensures order[i] != order[j] {
      assert order[..j][i] == order[i];
      assert order[j] !in Elems(order[..j]);
    }
    NoDupSize(order);
    assert Elems(order) <= Range(|g.deps|) by {
      forall x | x in order ensures x < |g.deps| {
        var i :| 0 <= i < |order| && order[i] == x;
        assert Available(g, Elems(order[..i]), order[i]);
      }
    }
    SubsetSize(Elems(order), Range(|g.deps|));
  }

  lemma CompleteCoversAll(g: Graph, order: seq<nat>)
    requires Complete(g, order)
    ensures NoDup(order) && Elems(order) == Range(|g.deps|)
  {
    TopologicalNoDup(g, order);
    NoDupSize(order);
    SubsetSize(Elems(order), Range(|g.deps|));
  }

  lemma GreedyIsTopological(g: Graph, order: seq<nat>)
    requires ValidGraph(g) && Greedy(g, order)
    ensures Topological(g, order)
  {
    forall i | 0 <= i < |order| ensures Available(g, Elems(order[..i]), order[i]) {
      assert MinAvailable(g, Elems(order[..i]), order[i]);
    }
  }

  // ------------------------------------------------------------------------
  // The greedy order is the least topological order
  // ------------------------------------------------------------------------

  /// The orders agree up to position `k`, where `p` has the smaller key.
  ghost predicate LexBeforeAt(g: Graph, p: seq<nat>, q: seq<nat>, k: nat) {
    && k < |p| && k < |q| && p[..k] == q[..k]
    && p[k] < |g.keys| && q[k] < |g.keys| && KeyLess(g.keys[p[k]], g.keys[q[k]])
  }

  /// `p` comes before `q` in the dictionary order on keys.
  ghost predicate LexBefore(g: Graph, p: seq<nat>, q: seq<nat>) {
    exists k: nat :: LexBeforeAt(g, p, q, k)
  }

  lemma KeysAreTotal(g: Graph, u: nat, v: nat)
    requires ValidGraph(g) && u < |g.keys| && v < |g.keys| && u != v
    ensures KeyLess(g.keys[u], g.keys[v]) || KeyLess(g.keys[v], g.keys[u])
    ensures !(KeyLess(g.keys[u], g.keys[v]) && KeyLess(g.keys[v], g.keys[u]))
  {
    assert g.keys[u].idx != g.keys[v].idx by {
      if u < v { assert g.keys[u].idx < g.keys[v].idx; } else { assert g.keys[v].idx < g.keys[u].idx; }
    }
  }

  /// First position at which two orders of equal length differ.
  lemma FirstDifference(p: seq<nat>, q: seq<nat>) returns (k: nat)
    requires |p| == |q| && p != q
    ensures k < |p| && p[..k] == q[..k] && p[k] != q[k]
  {
    k := 0;
    assert p == p[..|p|] && q == q[..|q|];
    while k < |p| && p[k] == q[k]
      invariant k <= |p| && p[..k] == q[..k]
      decreases |p| - k
    {
      assert p[..k + 1] == p[..k] + [p[k]] && q[..k + 1] == q[..k] + [q[k]];
      k := k + 1;
    }
  }

  /// A complete greedy order precedes every other complete topological order.
  lemma GreedyIsLeast(g: Graph, p: seq<nat>, q: seq<nat>)
    requires ValidGraph(g) && Greedy(g, p) && Complete(g, p) && Complete(g, q)
    ensures p == q || LexBefore(g, p, q)
  {
    if p != q {
      var k := FirstDifference(p, q);
      assert MinAvailable(g, Elems(p[..k]), p[k]);
      assert Available(g, Elems(q[..k]), q[k]);
      KeysAreTotal(g, p[k], q[k]);
      assert LexBeforeAt(g, p, q, k);
    }
  }

  lemma LexBeforeIsAsymmetric(g: Graph, p: seq<nat>, q: seq<nat>)
    requires ValidGraph(g) && LexBefore(g, p, q)
    ensures !LexBefore(g, q, p)
  {
    var k: nat :| LexBeforeAt(g, p, q, k);
    forall l: nat ensures !LexBeforeAt(g, q, p, l) {
      if k < l && l <= |p| && l <= |q| && q[..l] == p[..l] {
        assert q[..l][k] == p[..l][k];
      } else if l < k {
        assert p[..k][l] == q[..k][l];
      }
    }
  }

  /// There is exactly one complete greedy order: the least topological order.
  lemma LeastIsUnique(g: Graph, p: seq<nat>, q: seq<nat>)
    requires ValidGraph(g) && Greedy(g, p) && Complete(g, p) && Complete(g, q)
    requires forall r :: Complete(g, r) ==> q == r || LexBefore(g, q, r)
    ensures p == q
  {
    GreedyIsLeast(g, p, q);
    if p != q { LexBeforeIsAsymmetric(g, p, q); }
  }

  /// Without edges the greedy order is the stable sort by `order`: keys strictly increase.
  lemma WithoutEdgesSorted(g: Graph, p: seq<nat>)
    requires ValidGraph(g) && Greedy(g, p) && Complete(g, p)
    requires forall v :: 0 <= v < |g.deps| ==> g.deps[v] == {}
    ensures forall i, j :: 0 <= i < j < |p| ==> KeyLess(g.keys[p[i]], g.keys[p[j]])
  {
    CompleteCoversAll(g, p);
    forall i, j | 0 <= i < j < |p| ensures KeyLess(g.keys[p[i]], g.keys[p[j]]) {
      assert MinAvailable(g, Elems(p[..i]), p[i]);
      assert p[j] in Elems(p);
      assert Available(g, Elems(p[..i]), p[j]);
      KeysAreTotal(g, p[i], p[j]);
    }
  }

  // ------------------------------------------------------------------------
  // A stuck prefix means a cycle, and a cycle means no complete order
  // ------------------------------------------------------------------------

  /// Walk `steps` dependencies backwards without leaving the unplaced vertices.
  ghost function Wander(g: Graph, placed: set<nat>, v: nat, steps: nat): (w: seq<nat>)
    requires ValidGraph(g) && Stuck(g, placed) && v < |g.deps| && v !in placed
    ensures |w| == steps + 1 && w[0] == v
    ensures forall i :: 0 <= i <= steps ==> w[i] < |g.deps| && w[i] !in placed
    ensures forall i :: 0 <= i < steps ==> w[i + 1] in g.deps[w[i]]
    decreases steps
  {
    if steps == 0 then [v]
    else
      assert !Available(g, placed, v);
      var u :| u in g.deps[v] && u !in placed;
      [v] + Wander(g, placed, u, steps - 1)
  }

  /// Among more than n numbers below n, two are equal.
  lemma Pigeonhole(w: seq<nat>, n: nat) returns (i: nat, j: nat)
    requires |w| > n && forall k :: 0 <= k < |w| ==> w[k] < n
    ensures i < j < |w| && w[i] == w[j]
  {
    if NoDup(w) {
      NoDupSize(w);
      SubsetSize(Elems(w), Range(n));
      assert false;
    }
    i, j :| 0 <= i < j < |w| && w[i] == w[j];
  }

  /// A non-empty stuck remainder contains a cycle.
  lemma StuckHasCycle(g: Graph, placed: set<nat>, v: nat) returns (c: seq<nat>)
    requires ValidGraph(g) && Stuck(g, placed) && v < |g.deps| && v !in placed
    ensures IsCycle(g, c) && forall x :: x in c ==> x !in placed
  {
    var w := Wander(g, placed, v, |g.deps|);
    var i, j := Pigeonhole(w, |g.deps|);
    c := w[i..j];
    assert c[0] == w[j] && c[|c| - 1] == w[j - 1];
    assert w[j - 1 + 1] in g.deps[w[j - 1]];
    forall k | 0 <= k < |c| - 1 ensures c[k + 1] in g.deps[c[k]] {
      assert w[i + k + 1] in g.deps[w[i + k]];
    }
  }

  /// Where a vertex stands in a complete order.
  ghost function Position(g: Graph, order: seq<nat>, v: nat): (i: nat)
    requires Complete(g, order) && v < |g.deps|
    ensures i < |order| && order[i] == v
  {
    CompleteCoversAll(g, order);
    assert v in Elems(order);
    var i :| 0 <= i < |order| && order[i] == v;
    i
  }

  lemma DepsComeFirst(g: Graph, order: seq<nat>, v: nat, u: nat)
    requires Complete(g, order) && v < |g.deps| && u in g.deps[v] && u < |g.deps|
    ensures Position(g, order, u) < Position(g, order, v)
  {
    CompleteCoversAll(g, order);
    var i := Position(g, order, v);
    assert Available(g, Elems(order[..i]), order[i]);
    assert u in order[..i];
    var j :| 0 <= j < i && order[..i][j] == u;
    assert order[j] == order[Position(g, order, u)];
  }

  lemma {:induction false} CycleDescends(g: Graph, order: seq<nat>, c: seq<nat>, i: nat)
    requires ValidGraph(g) && Complete(g, order) && IsCycle(g, c) && i < |c|
    ensures i > 0 ==> Position(g, order, c[i]) < Position(g, order, c[0])
    decreases i
  {
    if i > 0 {
      CycleDescends(g, order, c, i - 1);
      assert c[i - 1 + 1] in g.deps[c[i - 1]];
      DepsComeFirst(g, order, c[i - 1], c[i]);
    }
  }

  lemma CycleExcludesComplete(g: Graph, order: seq<nat>, c: seq<nat>)
    requires ValidGraph(g) && Complete(g, order)
    ensures !IsCycle(g, c)
  {
    if IsCycle(g, c) {
      CycleDescends(g, order, c, |c| - 1);
      DepsComeFirst(g, order, c[|c| - 1], c[0]);
      assert false;
    }
  }

  /// A maximal greedy order is complete exactly when the graph has no cycle.
  lemma CompleteIffAcyclic(g: Graph, order: seq<nat>)
    requires ValidGraph(g) && Greedy(g, order) && Stuck(g, Elems(order))
    ensures |order| == |g.deps| <==> Acyclic(g)
    ensures |order| < |g.deps| ==> exists c :: IsCycle(g, c) && forall x :: x in c ==> x !in order
  {
    GreedyIsTopological(g, order);
    TopologicalNoDup(g, order);
    if |order| == |g.deps| {
      forall c ensures !IsCycle(g, c) {
        CycleExcludesComplete(g, order, c);
      }
    } else {
      NoDupSize(order);
      assert exists v: nat :: v < |g.deps| && v !in Elems(order) by {
        if forall v: nat :: v < |g.deps| ==> v in Elems(order) {
          SubsetSize(Range(|g.deps|), Elems(order));
        }
      }
      var v: nat :| v < |g.deps| && v !in Elems(order);
      var c := StuckHasCycle(g, Elems(order), v);
      assert forall x :: x in c ==> x !in order;
    }
  }

  // ------------------------------------------------------------------------
  // The algorithm
  // ------------------------------------------------------------------------

  predicate Below(s: seq<nat>, n: nat) {
    forall i :: 0 <= i < |s| ==> s[i] < n
  }

  predicate Ascending(keys: seq<Key>, s: seq<nat>)
    requires Below(s, |keys|)
  {
    forall i, j :: 0 <= i < j < |s| ==> !KeyLess(keys[s[j]], keys[s[i]])
  }

  /// Insert one vertex into an ascending list.
  method Insert(keys: seq<Key>, s: seq<nat>, x: nat) returns (r: seq<nat>)
    requires x < |keys| && x !in s && NoDup(s) && Below(s, |keys|)
    requires Ascending(keys, s)
    ensures NoDup(r) && Elems(r) == Elems(s) + {x} && Below(r, |keys|)
    ensures Ascending(keys, r)
  {
    var i := 0;
    while i < |s| && !KeyLess(keys[x], keys[s[i]])
      invariant i <= |s|
      invariant forall j :: 0 <= j < i ==> !KeyLess(keys[x], keys[s[j]])
    {
      i := i + 1;
    }
    r := s[..i] + [x] + s[i..];
    Inserted(keys, s, x, i);
  }

  lemma Inserted(keys: seq<Key>, s: seq<nat>, x: nat, i: nat)
    requires x < |keys| && x !in s && NoDup(s) && Below(s, |keys|) && Ascending(keys, s)
    requires i <= |s| && (i < |s| ==> KeyLess(keys[x], keys[s[i]]))
    requires forall j :: 0 <= j < i ==> !KeyLess(keys[x], keys[s[j]])
    ensures var r := s[..i] + [x] + s[i..];
            NoDup(r) && Elems(r) == Elems(s) + {x} && Below(r, |keys|) && Ascending(keys, r)
  {
    var r := s[..i] + [x] + s[i..];
    InsertedElems(s, x, i);
    forall k | 0 <= k < |r| ensures r[k] < |keys| {
      assert r[k] in Elems(r);
      assert r[k] == x || r[k] in s;
    }
    forall a, b | 0 <= a < b < |r| ensures !KeyLess(keys[r[b]], keys[r[a]]) {
      if a == i {
        assert r[b] == s[b - 1];
      } else if b == i {
        assert r[a] == s[a];
      } else {
        assert r[a] == s[if a < i then a else a - 1] && r[b] == s[if b < i then b else b - 1];
      }
    }
  }

  lemma InsertedElems(s: seq<nat>, x: nat, i: nat)
    requires x !in s && NoDup(s) && i <= |s|
    ensures var r := s[..i] + [x] + s[i..]; NoDup(r) && Elems(r) == Elems(s) + {x}
  {
    var r := s[..i] + [x] + s[i..];
    assert s == s[..i] + s[i..];
    forall a, b | 0 <= a < b < |r| ensures r[a] != r[b] {
      assert a != i ==> r[a] == s[if a < i then a else a - 1];
      assert b != i ==> r[b] == s[if b < i then b else b - 1];
    }
    forall y: nat ensures y in r <==> y in s || y == x {}
  }

  /// ready.sort(key = (order, parse index)).
  method SortByKey(keys: seq<Key>, s: seq<nat>) returns (r: seq<nat>)
    requires NoDup(s) && Below(s, |keys|)
    ensures NoDup(r) && Elems(r) == Elems(s) && |r| == |s| && Below(r, |keys|)
    ensures Ascending(keys, r)
  {
    r := [];
    for i := 0 to |s|
      invariant NoDup(r) && Elems(r) == Elems(s[..i]) && Below(r, |keys|)
      invariant Ascending(keys, r)
    {
      assert s[i] !in r by {
        assert s[i] !in Elems(s[..i]);
      }
      assert s[..i + 1] == s[..i] + [s[i]];
      ElemsSnoc(s[..i], s[i]);
      r := Insert(keys, r, s[i]);
    }
    assert s[..|s|] == s;
    NoDupSize(r);
    NoDupSize(s);
  }

  /// sorted(dependents): the members below `n`, in increasing order.
  method SortedMembers(a: set<nat>, n: nat) returns (r: seq<nat>)
    requires forall x :: x in a ==> x < n
    ensures NoDup(r) && Elems(r) == a
    ensures forall i, j :: 0 <= i < j < |r| ==> r[i] < r[j]
  {
    r := [];
    for x := 0 to n
      invariant Elems(r) == set y | y in a && y < x
      invariant forall i, j :: 0 <= i < j < |r| ==> r[i] < r[j]
    {
      if x in a {
        ElemsSnoc(r, x);
        assert forall i :: 0 <= i < |r| ==> r[i] in Elems(r);
        r := r + [x];
      }
    }
  }

  ghost function Dependents(g: Graph, u: nat): set<nat> {
    set v: nat | v < |g.deps| && u in g.deps[v]
  }

  ghost function Waiting(g: Graph, placed: set<nat>, v: nat): nat
    requires v < |g.deps|
  {
    |g.deps[v] - placed|
  }

  /// One pick removes exactly itself from what a dependent waits for.
  lemma WaitingDrops(g: Graph, placed: set<nat>, u: nat, v: nat)
    requires v < |g.deps| && u !in placed
    ensures Waiting(g, placed + {u}, v) == Waiting(g, placed, v) - if u in g.deps[v] then 1 else 0
  {
    var rest := g.deps[v] - placed;
    assert g.deps[v] - (placed + {u}) == rest - {u};
    if u !in g.deps[v] { assert rest - {u} == rest; }
  }

  lemma NothingWaiting(g: Graph, placed: set<nat>, v: nat)
    requires v < |g.deps|
    ensures Waiting(g, placed, v) == 0 <==> g.deps[v] <= placed
  {
    var rest := g.deps[v] - placed;
    if g.deps[v] <= placed {
      assert rest == {};
    } else {
      var u :| u in g.deps[v] && u !in placed;
      assert u in rest;
    }
  }

  lemma GreedySnoc(g: Graph, order: seq<nat>, v: nat)
    requires ValidGraph(g) && Greedy(g, order) && MinAvailable(g, Elems(order), v)
    ensures Greedy(g, order + [v])
  {
    var next := order + [v];
    forall i | 0 <= i < |next| ensures MinAvailable(g, Elems(next[..i]), next[i]) {
      if i < |order| {
        assert next[..i] == order[..i];
      } else {
        assert next[..i] == order;
      }
    }
  }

  /// dependents[u] collects every v with u in deps[v].
  method InvertDeps(g: Graph) returns (dependents: seq<set<nat>>)
    requires ValidGraph(g)
    ensures |dependents| == |g.deps| && forall u: nat :: u < |g.deps| ==> dependents[u] == Dependents(g, u)
  {
    var n := |g.deps|;
    dependents := seq(n, _ => {});
    for v := 0 to n
      invariant |dependents| == n
      invariant forall u: nat :: u < n ==> dependents[u] == set w: nat | w < v && u in g.deps[w]
    {
      var members := SortedMembers(g.deps[v], n);
      ghost var before := dependents;
      for k := 0 to |members|
        invariant |dependents| == n
        invariant forall u: nat :: u < n ==> dependents[u] == before[u] + if u in members[..k] then {v} else {}
      {
        assert members[k] in Elems(members);
        assert members[..k + 1] == members[..k] + [members[k]];
        dependents := dependents[members[k] := dependents[members[k]] + {v}];
      }
      assert members[..|members|] == members;
      forall u: nat | u < n ensures dependents[u] == set w: nat | w < v + 1 && u in g.deps[w] {
        assert u in members <==> u in Elems(members);
      }
    }
  }

  /// The counters and the ready list agree with what is placed.
  ghost predicate Counting(g: Graph, placed: set<nat>, inDegree: seq<int>) {
    |inDegree| == |g.deps| && forall v: nat :: v < |g.deps| ==> inDegree[v] == Waiting(g, placed, v)
  }

  ghost predicate Listing(g: Graph, placed: set<nat>, ready: seq<nat>) {
    NoDup(ready) && forall v: nat :: v in ready <==> Available(g, placed, v)
  }

  method Start(g: Graph) returns (inDegree: seq<int>, ready: seq<nat>)
    requires ValidGraph(g)
    ensures Counting(g, {}, inDegree) && Listing(g, {}, ready)
  {
    var n := |g.deps|;
    inDegree := seq(n, i requires 0 <= i < n => |g.deps[i]|);
    ready := [];
    for v := 0 to n
      invariant NoDup(ready) && forall x: nat :: x in ready <==> x < v && g.deps[x] == {}
    {
      if inDegree[v] == 0 {
        assert v !in ready;
        ready := ready + [v];
      }
    }
    forall v: nat | v < n ensures inDegree[v] == Waiting(g, {}, v) {
      assert g.deps[v] - {} == g.deps[v];
    }
  }

  /// Midway through the release of a pick: dependents in `todo` are still counted as before it.
  ghost predicate Released(g: Graph, placed: set<nat>, next: set<nat>, todo: set<nat>, inDegree: seq<int>) {
    && |inDegree| == |g.deps|
    && forall v: nat :: v < |g.deps| ==>
         inDegree[v] == if v in todo then Waiting(g, placed, v) else Waiting(g, next, v)
  }

  ghost predicate Relisted(g: Graph, next: set<nat>, todo: set<nat>, ready: seq<nat>) {
    NoDup(ready) && forall v: nat :: v in ready <==> Available(g, next, v) && v !in todo
  }

  lemma ReleasedStart(g: Graph, placed: set<nat>, pos: nat, inDegree: seq<int>)
    requires ValidGraph(g) && Available(g, placed, pos) && Counting(g, placed, inDegree)
    ensures Released(g, placed, placed + {pos}, Dependents(g, pos), inDegree)
  {
    forall v: nat | v < |g.deps| && v !in Dependents(g, pos)
      ensures inDegree[v] == Waiting(g, placed + {pos}, v)
    {
      WaitingDrops(g, placed, pos, v);
    }
  }

  lemma ReleasedStep(g: Graph, placed: set<nat>, pos: nat, todo: set<nat>, inDegree: seq<int>, d: nat)
    requires ValidGraph(g) && Available(g, placed, pos) && todo <= Dependents(g, pos) && d in todo
    requires Released(g, placed, placed + {pos}, todo, inDegree)
    ensures Released(g, placed, placed + {pos}, todo - {d}, inDegree[d := inDegree[d] - 1])
    ensures inDegree[d] - 1 == 0 <==> g.deps[d] <= placed + {pos}
  {
    WaitingDrops(g, placed, pos, d);
    NothingWaiting(g, placed + {pos}, d);
  }

  lemma RelistedStep(g: Graph, next: set<nat>, todo: set<nat>, ready: seq<nat>, d: nat, free: bool)
    requires Relisted(g, next, todo, ready) && d in todo && d < |g.deps| && d !in next
    requires free <==> g.deps[d] <= next
    ensures Relisted(g, next, todo - {d}, if free then ready + [d] else ready)
  {
    assert d !in ready;
  }

  /// Tell one dependent `d` of `pos` that `pos` is placed.
  method Notify(g: Graph, ghost placed: set<nat>, ghost pos: nat, ghost todo: set<nat>, d: nat, counts: seq<int>, list: seq<nat>)
    returns (inDegree: seq<int>, ready: seq<nat>)
    requires ValidGraph(g) && Available(g, placed, pos) && todo <= Dependents(g, pos) && d in todo && d !in placed + {pos}
    requires Released(g, placed, placed + {pos}, todo, counts) && Relisted(g, placed + {pos}, todo, list)
    ensures Released(g, placed, placed + {pos}, todo - {d}, inDegree)
    ensures Relisted(g, placed + {pos}, todo - {d}, ready)
  {
    ReleasedStep(g, placed, pos, todo, counts, d);
    RelistedStep(g, placed + {pos}, todo, list, d, counts[d] - 1 == 0);
    inDegree := counts[d := counts[d] - 1];
    if inDegree[d] == 0 {
      ready := list + [d];
    } else {
      ready := list;
    }
  }

  /// Tell every dependent of `pos` that `pos` is placed.
  method Release(g: Graph, ghost placed: set<nat>, pos: nat, dependents: set<nat>, counts: seq<int>, rest: seq<nat>)
    returns (inDegree: seq<int>, ready: seq<nat>)
    requires ValidGraph(g) && Available(g, placed, pos)
    requires dependents == Dependents(g, pos) && dependents !! placed + {pos}
    requires Counting(g, placed, counts)
    requires Relisted(g, placed + {pos}, dependents, rest)
    ensures Counting(g, placed + {pos}, inDegree) && Listing(g, placed + {pos}, ready)
  {
    ReleasedStart(g, placed, pos, counts);
    inDegree, ready := counts, rest;
    var ds := SortedMembers(dependents, |g.deps|);
    ghost var todo := dependents;
    while ds != []
      invariant NoDup(ds) && Elems(ds) == todo && todo <= dependents
      invariant Released(g, placed, placed + {pos}, todo, inDegree) && Relisted(g, placed + {pos}, todo, ready)
      decreases |ds|
    {
      DropFirst(ds);
      inDegree, ready := Notify(g, placed, pos, todo, ds[0], inDegree, ready);
      todo := todo - {ds[0]};
      ds := ds[1..];
    }
    ReleasedAll(g, placed, placed + {pos}, todo, inDegree, ready);
  }

  lemma ReleasedAll(g: Graph, placed: set<nat>, next: set<nat>, todo: set<nat>, inDegree: seq<int>, ready: seq<nat>)
    requires Released(g, placed, next, todo, inDegree) && Relisted(g, next, todo, ready) && todo == {}
    ensures Counting(g, next, inDegree) && Listing(g, next, ready)
  {}

  lemma DropFirst(s: seq<nat>)
    requires s != [] && NoDup(s)
    ensures s[0] in Elems(s) && Elems(s[1..]) == Elems(s) - {s[0]}
  {
    assert s == [s[0]] + s[1..];
  }

  /// Counts, per vertex, what it still waits for; keeps the vertices that wait for nothing.
  method Sort(g: Graph) returns (order: seq<nat>)
    requires ValidGraph(g)
    ensures Greedy(g, order) && Stuck(g, Elems(order))
  {
    var dependents := InvertDeps(g);
    var inDegree, ready: seq<nat> := Start(g);
    order := [];
    assert Elems(order) == {};
    while ready != []
      invariant Greedy(g, order)
      invariant Listing(g, Elems(order), ready) && Counting(g, Elems(order), inDegree)
      decreases |g.deps| - |order|
    {
      assert Below(ready, |g.keys|) by {
        forall i | 0 <= i < |ready| ensures ready[i] < |g.keys| { assert ready[i] in ready; }
      }
      var sorted := SortByKey(g.keys, ready);
      var pos := sorted[0];
      PickIsLeast(g, Elems(order), ready, sorted);
      GreedySnoc(g, order, pos);
      GreedyIsTopological(g, order + [pos]);
      TopologicalNoDup(g, order + [pos]);
      ElemsSnoc(order, pos);
      RestAvailable(g, Elems(order), sorted, ready);
      forall d | d in Dependents(g, pos) ensures d !in Elems(order + [pos]) {
        DependentsAreUnplaced(g, order + [pos], d);
      }
      inDegree, ready := Release(g, Elems(order), pos, dependents[pos], inDegree, sorted[1..]);
      order := order + [pos];
    }
  }

  lemma DependentsAreUnplaced(g: Graph, order: seq<nat>, d: nat)
    requires ValidGraph(g) && Topological(g, order) && order != []
    requires d in Dependents(g, order[|order| - 1])
    ensures d !in Elems(order)
  {
    TopologicalNoDup(g, order);
    forall i | 0 <= i < |order| ensures order[i] != d {
      if order[i] == d {
        assert false;
      }
    }
  }

  lemma PickIsLeast(g: Graph, placed: set<nat>, ready: seq<nat>, sorted: seq<nat>)
    requires ValidGraph(g) && Listing(g, placed, ready)
    requires sorted != [] && Elems(sorted) == Elems(ready) && Below(sorted, |g.keys|) && Ascending(g.keys, sorted)
    ensures MinAvailable(g, placed, sorted[0])
  {
    assert sorted[0] in Elems(sorted);
    forall u: nat | Available(g, placed, u) ensures !KeyLess(g.keys[u], g.keys[sorted[0]]) {
      assert u in Elems(ready);
      var i :| 0 <= i < |sorted| && sorted[i] == u;
    }
  }

  /// What stays in the ready list after the pick is what was available before, minus the pick.
  lemma RestAvailable(g: Graph, placed: set<nat>, sorted: seq<nat>, ready: seq<nat>)
    requires ValidGraph(g) && sorted != [] && NoDup(sorted)
    requires Listing(g, placed, ready) && Elems(sorted) == Elems(ready)
    ensures Relisted(g, placed + {sorted[0]}, Dependents(g, sorted[0]), sorted[1..])
  {
    assert sorted[0] in Elems(sorted);
    forall v: nat ensures v in sorted[1..] <==> Available(g, placed + {sorted[0]}, v) && v !in Dependents(g, sorted[0]) {
      assert v in sorted <==> v in Elems(sorted);
      assert v in ready <==> v in Elems(ready);
      assert sorted == [sorted[0]] + sorted[1..];
    }
  }
}
