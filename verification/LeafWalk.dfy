/// The leaf rule of scripts/bbtool/discovery.py: a walk over a directory graph in
/// which symbolic links may make cycles and diamonds.
module LeafWalk {
  import opened Names
  import opened Wrappers

  /// A real directory: whether it holds a CMakeLists.txt, and its subdirectories
  /// by name, each resolved to the real directory it stands for.  The listing is
  /// in whatever order the file system gives.
  datatype Dir = Dir(cmake: bool, listing: seq<Name>, target: map<Name, nat>)

  /// The directories of a file system by real path, real paths being numbers here.
  type Tree = map<nat, Dir>

  /// Names read downwards from the base of the walk.
  type Path = seq<Name>

  ghost predicate Resolved(tree: Tree) {
    forall n :: n in tree ==> DirOk(tree, tree[n])
  }

  ghost predicate DirOk(tree: Tree, d: Dir) {
    && (forall x :: x in d.listing <==> x in d.target)
    && (forall i, j :: 0 <= i < j < |d.listing| ==> d.listing[i] != d.listing[j])
    && (forall x :: x in d.target ==> d.target[x] in tree)
  }

  predicate Hidden(x: Name) {
    x != [] && x[0] == '.'
  }

  function Prefixed(x: Name, paths: seq<Path>): (r: seq<Path>)
    ensures |r| == |paths| && forall i :: 0 <= i < |r| ==> r[i] == [x] + paths[i]
  {
    seq(|paths|, i requires 0 <= i < |paths| => [x] + paths[i])
  }

  /// _leaf_component_dirs below an existing directory, whose ancestors on this
  /// branch are given.  It terminates because a directory is entered only when it
  /// is not yet among the ancestors.
  function Walk(tree: Tree, n: nat, ancestors: set<nat>): seq<Path>
    requires Resolved(tree) && n in tree
    decreases tree.Keys - ancestors, 0
  {
    if n in ancestors then []
    else
      SortedSameNames(tree[n].listing);
      WalkNames(tree, n, Sorted(tree[n].listing), ancestors + {n})
  }

  function WalkNames(tree: Tree, n: nat, names: seq<Name>, ancestors: set<nat>): seq<Path>
    requires Resolved(tree) && n in tree
    requires forall x :: x in names ==> x in tree[n].target
    decreases tree.Keys - ancestors, |names|
  {
    if names == [] then []
    else Below(tree, n, names[0], ancestors, if Enters(tree, n, names[0]) then Walk(tree, tree[n].target[names[0]], ancestors) else [])
         + WalkNames(tree, n, names[1..], ancestors)
  }

  /// The walk goes into a visible subdirectory without a CMakeLists.txt.
  predicate Enters(tree: Tree, n: nat, x: Name)
    requires Resolved(tree) && n in tree && x in tree[n].target
  {
    !Hidden(x) && !tree[tree[n].target[x]].cmake
  }

  function Below(tree: Tree, n: nat, x: Name, ancestors: set<nat>, inner: seq<Path>): seq<Path>
    requires Resolved(tree) && n in tree && x in tree[n].target
  {
    if Hidden(x) then []
    else if tree[tree[n].target[x]].cmake then [[x]]
    else Prefixed(x, inner)
  }

  /// The generator as callers see it: nothing for a base that does not exist.
  function LeafDirs(tree: Tree, base: Option<nat>): seq<Path>
    requires Resolved(tree) && (base.Some? ==> base.value in tree)
  {
    if base.None? then [] else Walk(tree, base.value, {})
  }

  // --- what it should yield ----------------------------------------------------------

  /// The directory a path leads to.
  function Follow(tree: Tree, n: nat, p: Path): (r: Option<nat>)
    requires Resolved(tree) && n in tree
    ensures r.Some? ==> r.value in tree
    decreases |p|
  {
    if p == [] then Some(n)
    else if p[0] in tree[n].target then Follow(tree, tree[n].target[p[0]], p[1..])
    else None
  }

  predicate IsLeafDir(tree: Tree, n: nat, p: Path)
    requires Resolved(tree) && n in tree
  {
    Follow(tree, n, p).Some? && tree[Follow(tree, n, p).value].cmake
  }

  predicate AllVisible(p: Path) {
    forall i :: 0 <= i < |p| ==> !Hidden(p[i])
  }

  /// A non-empty, visible path to the first directory below the base with a
  /// CMakeLists.txt, along which no directory is passed through twice.
  ghost predicate LeafPath(tree: Tree, n: nat, p: Path)
    requires Resolved(tree) && n in tree
  {
    && p != []
    && AllVisible(p)
    && IsLeafDir(tree, n, p)
    && (forall i :: 0 < i < |p| ==> !IsLeafDir(tree, n, p[..i]))
    && (forall i, j :: 0 <= i < j < |p| ==> Follow(tree, n, p[..i]) != Follow(tree, n, p[..j]))
  }

  /// The same, one name at a time.
  predicate LeafFrom(tree: Tree, n: nat, ancestors: set<nat>, p: Path)
    requires Resolved(tree) && n in tree
    decreases |p|, 1
  {
    n !in ancestors && StepsToLeaf(tree, n, ancestors + {n}, p)
  }

  predicate StepsToLeaf(tree: Tree, n: nat, ancestors: set<nat>, p: Path)
    requires Resolved(tree) && n in tree
    decreases |p|, 0
  {
    && p != [] && p[0] in tree[n].target && !Hidden(p[0])
    && var t := tree[n].target[p[0]];
       if tree[t].cmake then |p| == 1 else LeafFrom(tree, t, ancestors, p[1..])
  }

  lemma InPrefixed(x: Name, paths: seq<Path>, p: Path)
    ensures p in Prefixed(x, paths) <==> p != [] && p[0] == x && p[1..] in paths
  {
    if p in Prefixed(x, paths) {
      var i :| 0 <= i < |paths| && p == [x] + paths[i];
      assert p[1..] == paths[i];
    }
    if p != [] && p[0] == x && p[1..] in paths {
      var i :| 0 <= i < |paths| && paths[i] == p[1..];
      assert Prefixed(x, paths)[i] == [x] + p[1..] == p;
    }
  }

  lemma {:induction false} WalkYields(tree: Tree, n: nat, ancestors: set<nat>, p: Path)
    requires Resolved(tree) && n in tree
    ensures p in Walk(tree, n, ancestors) <==> LeafFrom(tree, n, ancestors, p)
    decreases tree.Keys - ancestors, 0
  {
    if n !in ancestors {
      SortedSameNames(tree[n].listing);
      NamesYield(tree, n, Sorted(tree[n].listing), ancestors + {n}, p);
    }
  }

  lemma {:induction false} NamesYield(tree: Tree, n: nat, names: seq<Name>, ancestors: set<nat>, p: Path)
    requires Resolved(tree) && n in tree
    requires forall x :: x in names ==> x in tree[n].target
    ensures p in WalkNames(tree, n, names, ancestors) <==>
              p != [] && p[0] in names && StepsToLeaf(tree, n, ancestors, p)
    decreases tree.Keys - ancestors, |names|
  {
    if names != [] {
      NamesYield(tree, n, names[1..], ancestors, p);
      var x := names[0];
      var inner := if Enters(tree, n, x) then Walk(tree, tree[n].target[x], ancestors) else [];
      if Enters(tree, n, x) && p != [] {
        WalkYields(tree, tree[n].target[x], ancestors, p[1..]);
      }
      BelowYields(tree, n, x, ancestors, inner, p);
      assert WalkNames(tree, n, names, ancestors) ==
             Below(tree, n, x, ancestors, inner) + WalkNames(tree, n, names[1..], ancestors);
      if p != [] {
        HeadOrTail(names, p[0]);
      }
    }
  }

  lemma HeadOrTail(names: seq<Name>, x: Name)
    requires names != []
    ensures x in names <==> x == names[0] || x in names[1..]
  {
    assert names == [names[0]] + names[1..];
  }

  lemma BelowYields(tree: Tree, n: nat, x: Name, ancestors: set<nat>, inner: seq<Path>, p: Path)
    requires Resolved(tree) && n in tree && x in tree[n].target
    requires Enters(tree, n, x) && p != [] ==>
               (p[1..] in inner <==> LeafFrom(tree, tree[n].target[x], ancestors, p[1..]))
    ensures p in Below(tree, n, x, ancestors, inner) <==>
              p != [] && p[0] == x && StepsToLeaf(tree, n, ancestors, p)
  {
    InPrefixed(x, inner, p);
    if p != [] && p[0] == x && |p| == 1 {
      assert p == [x];
    }
  }

  ghost predicate Avoids(tree: Tree, n: nat, p: Path, ancestors: set<nat>)
    requires Resolved(tree) && n in tree
  {
    forall i :: 0 <= i < |p| ==> Lands(tree, n, p[..i]) !in ancestors
  }

  /// The directory a path leads to, or the base itself when it leads nowhere.
  function Lands(tree: Tree, n: nat, p: Path): nat
    requires Resolved(tree) && n in tree
  {
    match Follow(tree, n, p)
    case Some(m) => m
    case None => n
  }

  lemma FollowTail(tree: Tree, n: nat, p: Path, i: nat)
    requires Resolved(tree) && n in tree && p != [] && p[0] in tree[n].target && i < |p|
    ensures Follow(tree, n, p[..i + 1]) == Follow(tree, tree[n].target[p[0]], p[1..][..i])
  {
    assert p[..i + 1][1..] == p[1..][..i];
  }

  lemma {:induction false} PrefixesExist(tree: Tree, n: nat, p: Path, i: nat)
    requires Resolved(tree) && n in tree && i <= |p| && Follow(tree, n, p).Some?
    ensures Follow(tree, n, p[..i]).Some?
    decreases i
  {
    if i > 0 {
      PrefixesExist(tree, tree[n].target[p[0]], p[1..], i - 1);
      FollowTail(tree, n, p, i - 1);
    }
  }

  lemma {:induction false} FromIsPath(tree: Tree, n: nat, ancestors: set<nat>, p: Path)
    requires Resolved(tree) && n in tree
    ensures LeafFrom(tree, n, ancestors, p) <==> LeafPath(tree, n, p) && Avoids(tree, n, p, ancestors)
    decreases |p|
  {
    if p != [] && p[0] in tree[n].target {
      var t := tree[n].target[p[0]];
      if tree[t].cmake {
        FirstStepIsLeaf(tree, n, ancestors, p);
      } else if |p| == 1 {
        assert p[1..] == [];
        assert Follow(tree, n, p) == Some(t);
        assert !LeafFrom(tree, t, ancestors + {n}, p[1..]);
      } else {
        FromIsPath(tree, t, ancestors + {n}, p[1..]);
        assert LeafFrom(tree, n, ancestors, p) <==>
            n !in ancestors && !Hidden(p[0]) && LeafFrom(tree, t, ancestors + {n}, p[1..]);
        if LeafFrom(tree, n, ancestors, p) {
          ExtendPath(tree, n, ancestors, p);
        }
        if LeafPath(tree, n, p) && Avoids(tree, n, p, ancestors) {
          ShortenPath(tree, n, ancestors, p);
        }
      }
    }
  }

  lemma FirstStepIsLeaf(tree: Tree, n: nat, ancestors: set<nat>, p: Path)
    requires Resolved(tree) && n in tree && p != [] && p[0] in tree[n].target
    requires tree[tree[n].target[p[0]]].cmake
    ensures LeafFrom(tree, n, ancestors, p) <==> LeafPath(tree, n, p) && Avoids(tree, n, p, ancestors)
  {
    assert p[..0] == [];
    FollowTail(tree, n, p, 0);
    assert IsLeafDir(tree, n, p[..1]);
    if |p| == 1 {
      assert p[..1] == p;
    }
  }

  lemma ExtendPath(tree: Tree, n: nat, ancestors: set<nat>, p: Path)
    requires Resolved(tree) && n in tree && |p| > 1 && p[0] in tree[n].target && !Hidden(p[0])
    requires n !in ancestors && !tree[tree[n].target[p[0]]].cmake
    requires LeafPath(tree, tree[n].target[p[0]], p[1..])
    requires Avoids(tree, tree[n].target[p[0]], p[1..], ancestors + {n})
    ensures LeafPath(tree, n, p) && Avoids(tree, n, p, ancestors)
  {
    var t, q := tree[n].target[p[0]], p[1..];
    forall i: nat | i < |q|
      ensures Follow(tree, n, p[..i + 1]) == Follow(tree, t, q[..i]) == Some(Lands(tree, t, q[..i]))
    {
      FollowTail(tree, n, p, i);
      PrefixesExist(tree, t, q, i);
    }
    assert p[..0] == [];
    forall i | 0 <= i < |p|
      ensures Lands(tree, n, p[..i]) !in ancestors
      ensures 0 < i ==> Lands(tree, n, p[..i]) != n && !IsLeafDir(tree, n, p[..i])
      ensures Follow(tree, n, p[..i]).Some?
    {
      if i > 0 {
        assert Follow(tree, n, p[..(i - 1) + 1]) == Follow(tree, t, q[..i - 1]);
        if i > 1 {
          assert !IsLeafDir(tree, t, q[..i - 1]);
        } else {
          assert q[..0] == [];
        }
      }
    }
    forall i, j | 0 <= i < j < |p|
      ensures Follow(tree, n, p[..i]) != Follow(tree, n, p[..j])
    {
      if i > 0 {
        assert Follow(tree, n, p[..(i - 1) + 1]) == Follow(tree, t, q[..i - 1]);
        assert Follow(tree, n, p[..(j - 1) + 1]) == Follow(tree, t, q[..j - 1]);
      }
    }
  }

  lemma ShortenPath(tree: Tree, n: nat, ancestors: set<nat>, p: Path)
    requires Resolved(tree) && n in tree && |p| > 1 && p[0] in tree[n].target
    requires LeafPath(tree, n, p) && Avoids(tree, n, p, ancestors)
    ensures !Hidden(p[0]) && n !in ancestors && !tree[tree[n].target[p[0]]].cmake
    ensures LeafPath(tree, tree[n].target[p[0]], p[1..])
    ensures Avoids(tree, tree[n].target[p[0]], p[1..], ancestors + {n})
  {
    var t, q := tree[n].target[p[0]], p[1..];
    assert p[..0] == [];
    forall i: nat | i < |q|
      ensures Follow(tree, n, p[..i + 1]) == Follow(tree, t, q[..i]) == Some(Lands(tree, t, q[..i]))
    {
      FollowTail(tree, n, p, i);
      PrefixesExist(tree, t, q, i);
    }
    assert Follow(tree, n, p[..0 + 1]) == Follow(tree, t, q[..0]);
    assert !IsLeafDir(tree, n, p[..1]);
    forall i: nat | i < |q|
      ensures Lands(tree, t, q[..i]) !in ancestors + {n}
    {
      assert Follow(tree, n, p[..i + 1]) == Follow(tree, t, q[..i]);
      assert Lands(tree, n, p[..i + 1]) !in ancestors;
      assert Follow(tree, n, p[..0]) != Follow(tree, n, p[..i + 1]);
    }
    forall i, j | 0 <= i < j < |q|
      ensures Follow(tree, t, q[..i]) != Follow(tree, t, q[..j])
    {
      assert Follow(tree, n, p[..i + 1]) != Follow(tree, n, p[..j + 1]);
    }
    forall i | 0 < i < |q|
      ensures !IsLeafDir(tree, t, q[..i])
    {
      assert !IsLeafDir(tree, n, p[..i + 1]);
    }
  }

  /// The walk yields exactly the leaf paths, on every directory graph, cycles and
  /// diamonds included.
  lemma YieldsExactlyLeafPaths(tree: Tree, n: nat, p: Path)
    requires Resolved(tree) && n in tree
    ensures p in LeafDirs(tree, Some(n)) <==> LeafPath(tree, n, p)
  {
    WalkYields(tree, n, {}, p);
    FromIsPath(tree, n, {}, p);
  }

  /// No yielded path lies under another.
  lemma LeavesNeverNest(tree: Tree, n: nat, p: Path, q: Path)
    requires Resolved(tree) && n in tree
    requires p in LeafDirs(tree, Some(n)) && q in LeafDirs(tree, Some(n))
    ensures p <= q ==> p == q
  {
    YieldsExactlyLeafPaths(tree, n, p);
    YieldsExactlyLeafPaths(tree, n, q);
    var cut := if |p| < |q| then q[..|p|] else q;
    assert p <= q ==> cut == p;
    assert 0 < |p| < |q| ==> !IsLeafDir(tree, n, cut);
  }

  // --- no path twice, and no dependence on listing order -------------------------------

  ghost predicate NoRepeats<T>(s: seq<T>) {
    forall i, j :: 0 <= i < j < |s| ==> s[i] != s[j]
  }

  /// A permutation of a list without repeats has none.
  lemma PermutedHasNoRepeats<T>(s: seq<T>, r: seq<T>)
    requires NoRepeats(s) && multiset(r) == multiset(s)
    ensures NoRepeats(r)
  {
    forall i, j | 0 <= i < j < |r|
      ensures r[i] != r[j]
    {
      if r[i] == r[j] {
        TwiceCounts(r, i, j);
        OnceCounts(s, r[i]);
      }
    }
  }

  lemma TwiceCounts<T>(s: seq<T>, i: nat, j: nat)
    requires i < j < |s| && s[i] == s[j]
    ensures multiset(s)[s[i]] >= 2
  {
    assert s == s[..j] + [s[j]] + s[j + 1..];
    assert s[i] == s[..j][i];
    assert multiset(s) == multiset(s[..j]) + multiset{s[j]} + multiset(s[j + 1..]);
    assert s[i] in multiset(s[..j]);
  }

  lemma {:induction false} OnceCounts<T>(s: seq<T>, x: T)
    requires NoRepeats(s)
    ensures multiset(s)[x] <= 1
  {
    if s != [] {
      assert s == [s[0]] + s[1..];
      OnceCounts(s[1..], x);
      if s[0] == x {
        assert x !in s[1..];
        assert x !in multiset(s[1..]);
      }
    }
  }

  lemma {:induction false} WalkHasNoRepeats(tree: Tree, n: nat, ancestors: set<nat>)
    requires Resolved(tree) && n in tree
    ensures NoRepeats(Walk(tree, n, ancestors))
    decreases tree.Keys - ancestors, 0
  {
    if n !in ancestors {
      SortedSameNames(tree[n].listing);
      assert DirOk(tree, tree[n]);
      PermutedHasNoRepeats(tree[n].listing, Sorted(tree[n].listing));
      NamesHaveNoRepeats(tree, n, Sorted(tree[n].listing), ancestors + {n});
    }
  }

  lemma {:induction false} NamesHaveNoRepeats(tree: Tree, n: nat, names: seq<Name>, ancestors: set<nat>)
    requires Resolved(tree) && n in tree && NoRepeats(names)
    requires forall x :: x in names ==> x in tree[n].target
    ensures NoRepeats(WalkNames(tree, n, names, ancestors))
    decreases tree.Keys - ancestors, |names|
  {
    if names != [] {
      var x, rest := names[0], WalkNames(tree, n, names[1..], ancestors);
      NamesHaveNoRepeats(tree, n, names[1..], ancestors);
      forall p | p in rest
        ensures p != [] && p[0] != x
      {
        NamesYield(tree, n, names[1..], ancestors, p);
      }
      if Enters(tree, n, x) {
        var inner := Walk(tree, tree[n].target[x], ancestors);
        WalkHasNoRepeats(tree, tree[n].target[x], ancestors);
        PrefixedHasNoRepeats(x, inner);
        DisjointHeads(x, Prefixed(x, inner), rest);
      } else if !Hidden(x) {
        DisjointHeads(x, [[x]], rest);
      } else {
        assert [] + rest == rest;
      }
    }
  }

  lemma PrefixedHasNoRepeats(x: Name, paths: seq<Path>)
    requires NoRepeats(paths)
    ensures NoRepeats(Prefixed(x, paths))
  {
    forall i, j | 0 <= i < j < |paths|
      ensures Prefixed(x, paths)[i] != Prefixed(x, paths)[j]
    {
      assert ([x] + paths[i])[1..] == paths[i] && ([x] + paths[j])[1..] == paths[j];
    }
  }

  lemma DisjointHeads(x: Name, first: seq<Path>, rest: seq<Path>)
    requires NoRepeats(first) && NoRepeats(rest)
    requires forall i :: 0 <= i < |first| ==> first[i] != [] && first[i][0] == x
    requires forall p :: p in rest ==> p != [] && p[0] != x
    ensures NoRepeats(first + rest)
  {
  }

  // --- in which order they are yielded ---------------------------------------------------

  /// The paths first differ in a directory, and `p` has the smaller name there.
  ghost predicate ForksBefore(p: Path, q: Path, k: nat) {
    k < |p| && k < |q| && p[..k] == q[..k] && p[k] != q[k] && Leq(p[k], q[k])
  }

  ghost predicate YieldedBefore(p: Path, q: Path) {
    exists k: nat :: ForksBefore(p, q, k)
  }

  ghost predicate InOrder(paths: seq<Path>) {
    forall i, j :: 0 <= i < j < |paths| ==> YieldedBefore(paths[i], paths[j])
  }

  lemma HeadsApart(p: Path, q: Path)
    requires p != [] && q != [] && p[0] != q[0] && Leq(p[0], q[0])
    ensures YieldedBefore(p, q)
  {
    assert p[..0] == q[..0];
    assert ForksBefore(p, q, 0);
  }

  lemma PrefixedInOrder(x: Name, paths: seq<Path>)
    requires InOrder(paths)
    ensures InOrder(Prefixed(x, paths))
  {
    var longer := Prefixed(x, paths);
    forall i, j | 0 <= i < j < |longer| ensures YieldedBefore(longer[i], longer[j]) {
      assert YieldedBefore(paths[i], paths[j]);
      var k: nat :| ForksBefore(paths[i], paths[j], k);
      assert longer[i][..k + 1] == [x] + paths[i][..k] && longer[j][..k + 1] == [x] + paths[j][..k];
      assert ForksBefore(longer[i], longer[j], k + 1);
    }
  }

  lemma AppendInOrder(x: Name, first: seq<Path>, rest: seq<Path>)
    requires InOrder(first) && InOrder(rest)
    requires forall i :: 0 <= i < |first| ==> first[i] != [] && first[i][0] == x
    requires forall q :: q in rest ==> q != [] && q[0] != x && Leq(x, q[0])
    ensures InOrder(first + rest)
  {
    var all := first + rest;
    forall i, j | 0 <= i < j < |all| ensures YieldedBefore(all[i], all[j]) {
      if j < |first| {
        assert YieldedBefore(first[i], first[j]);
      } else if i < |first| {
        assert all[j] in rest;
        HeadsApart(all[i], all[j]);
      } else {
        assert YieldedBefore(rest[i - |first|], rest[j - |first|]);
      }
    }
  }

  lemma {:induction false} WalkInOrder(tree: Tree, n: nat, ancestors: set<nat>)
    requires Resolved(tree) && n in tree
    ensures InOrder(Walk(tree, n, ancestors))
    decreases tree.Keys - ancestors, 0
  {
    if n !in ancestors {
      SortedSameNames(tree[n].listing);
      assert DirOk(tree, tree[n]);
      PermutedHasNoRepeats(tree[n].listing, Sorted(tree[n].listing));
      NamesInOrder(tree, n, Sorted(tree[n].listing), ancestors + {n});
    }
  }

  lemma {:induction false} NamesInOrder(tree: Tree, n: nat, names: seq<Name>, ancestors: set<nat>)
    requires Resolved(tree) && n in tree && NoRepeats(names) && Ascending(names)
    requires forall x :: x in names ==> x in tree[n].target
    ensures InOrder(WalkNames(tree, n, names, ancestors))
    decreases tree.Keys - ancestors, |names|
  {
    if names != [] {
      var x, rest := names[0], WalkNames(tree, n, names[1..], ancestors);
      NamesInOrder(tree, n, names[1..], ancestors);
      forall q | q in rest ensures q != [] && q[0] != x && Leq(x, q[0]) {
        NamesYield(tree, n, names[1..], ancestors, q);
        var k :| 0 <= k < |names[1..]| && names[1..][k] == q[0];
        assert names[k + 1] == q[0];
      }
      if Enters(tree, n, x) {
        var inner := Walk(tree, tree[n].target[x], ancestors);
        WalkInOrder(tree, tree[n].target[x], ancestors);
        PrefixedInOrder(x, inner);
        AppendInOrder(x, Prefixed(x, inner), rest);
      } else if !Hidden(x) {
        AppendInOrder(x, [[x]], rest);
      } else {
        assert [] + rest == rest;
      }
    }
  }

  /// Leaves are yielded in the dictionary order of their paths, and no path on the way to one
  /// has a name that starts with a dot.
  lemma YieldsInOrder(tree: Tree, n: nat)
    requires Resolved(tree) && n in tree
    ensures InOrder(LeafDirs(tree, Some(n)))
    ensures forall p, i :: p in LeafDirs(tree, Some(n)) && 0 <= i < |p| ==> p[i] == "" || p[i][0] != '.'
  {
    WalkInOrder(tree, n, {});
    forall p | p in LeafDirs(tree, Some(n)) ensures AllVisible(p) {
      YieldsExactlyLeafPaths(tree, n, p);
    }
  }

  /// Every leaf is yielded once.
  lemma EachLeafOnce(tree: Tree, n: nat)
    requires Resolved(tree) && n in tree
    ensures NoRepeats(LeafDirs(tree, Some(n)))
  {
    WalkHasNoRepeats(tree, n, {});
  }

  /// The same directories, listed in another order.
  ghost predicate SameButListing(a: Tree, b: Tree) {
    && a.Keys == b.Keys
    && forall n :: n in a ==>
         a[n].cmake == b[n].cmake && a[n].target == b[n].target && multiset(a[n].listing) == multiset(b[n].listing)
  }

  lemma {:induction false} WalkForgetsListingOrder(a: Tree, b: Tree, n: nat, ancestors: set<nat>)
    requires Resolved(a) && Resolved(b) && SameButListing(a, b) && n in a
    ensures Walk(a, n, ancestors) == Walk(b, n, ancestors)
    decreases a.Keys - ancestors, 0
  {
    if n !in ancestors {
      SortedForgetsOrder(a[n].listing, b[n].listing);
      SortedSameNames(a[n].listing);
      NamesForgetListingOrder(a, b, n, Sorted(a[n].listing), ancestors + {n});
    }
  }

  lemma {:induction false} NamesForgetListingOrder(a: Tree, b: Tree, n: nat, names: seq<Name>, ancestors: set<nat>)
    requires Resolved(a) && Resolved(b) && SameButListing(a, b) && n in a
    requires forall x :: x in names ==> x in a[n].target
    ensures WalkNames(a, n, names, ancestors) == WalkNames(b, n, names, ancestors)
    decreases a.Keys - ancestors, |names|
  {
    if names != [] {
      NamesForgetListingOrder(a, b, n, names[1..], ancestors);
      if Enters(a, n, names[0]) {
        WalkForgetsListingOrder(a, b, a[n].target[names[0]], ancestors);
      }
    }
  }
}
