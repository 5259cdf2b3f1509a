/// ComponentIndex.owner_of_path: the indexed directories are tried deepest first.
///
/// For an absolute path this finds the longest indexed directory above it.  A
/// root-relative path is matched against root-relative directories, which were
/// sorted by their absolute depth: over roots of different depths the first match
/// need not be the longest, and RelativeIsLongestIff says exactly when it is.
module OwnerQuery {
  import opened Names
  import opened Wrappers
  import opened LeafWalk
  import opened ComponentIndex

  /// One (abs_dir, rel_dir, name) triple; abs_dir is root + rel.
  datatype IndexedDir = IndexedDir(root: Path, rel: Path, name: Name) {
    function Abs(): Path {
      root + rel
    }
  }

  /// dirs.sort(key=depth, reverse=True): stable, deepest first.
  function DeepestFirst(dirs: seq<IndexedDir>): (r: seq<IndexedDir>)
    ensures Descending(r) && multiset(r) == multiset(dirs)
  {
    if dirs == [] then []
    else
      assert dirs == dirs[..|dirs| - 1] + [dirs[|dirs| - 1]];
      Place(dirs[|dirs| - 1], DeepestFirst(dirs[..|dirs| - 1]))
  }

  /// A later element goes behind those of its own depth.
  function Place(d: IndexedDir, sorted: seq<IndexedDir>): (r: seq<IndexedDir>)
    requires Descending(sorted)
    ensures Descending(r) && multiset(r) == multiset(sorted) + multiset{d}
  {
    if sorted == [] || |sorted[0].Abs()| < |d.Abs()| then [d] + sorted
    else
      var rest := Place(d, sorted[1..]);
      PlacedLater(d, sorted, rest);
      [sorted[0]] + rest
  }

  lemma PlacedLater(d: IndexedDir, sorted: seq<IndexedDir>, rest: seq<IndexedDir>)
    requires Descending(sorted) && sorted != [] && |sorted[0].Abs()| >= |d.Abs()|
    requires Descending(rest) && multiset(rest) == multiset(sorted[1..]) + multiset{d}
    ensures Descending([sorted[0]] + rest)
    ensures multiset([sorted[0]] + rest) == multiset(sorted) + multiset{d}
  {
    assert sorted == [sorted[0]] + sorted[1..];
    forall j | 0 <= j < |rest|
      ensures |sorted[0].Abs()| >= |rest[j].Abs()|
    {
      assert rest[j] in multiset(rest);
      if rest[j] != d {
        assert rest[j] in sorted[1..];
        var k :| 0 <= k < |sorted[1..]| && sorted[1..][k] == rest[j];
        assert sorted[k + 1] == rest[j];
      }
    }
  }

  /// The directories of one depth, in their order.
  function AtDepth(dirs: seq<IndexedDir>, depth: nat): seq<IndexedDir> {
    if dirs == [] then []
    else (if |dirs[0].Abs()| == depth then [dirs[0]] else []) + AtDepth(dirs[1..], depth)
  }

  lemma {:induction false} AtDepthSnoc(dirs: seq<IndexedDir>, d: IndexedDir, depth: nat)
    ensures AtDepth(dirs + [d], depth) == AtDepth(dirs, depth) + if |d.Abs()| == depth then [d] else []
  {
    if dirs != [] {
      AtDepthSnoc(dirs[1..], d, depth);
      assert (dirs + [d])[1..] == dirs[1..] + [d];
    }
  }

  lemma {:induction false} NoneAtDepth(dirs: seq<IndexedDir>, depth: nat)
    requires forall i :: 0 <= i < |dirs| ==> |dirs[i].Abs()| < depth
    ensures AtDepth(dirs, depth) == []
  {
    if dirs != [] {
      NoneAtDepth(dirs[1..], depth);
    }
  }

  lemma AtDepthCons(d: IndexedDir, dirs: seq<IndexedDir>, depth: nat)
    ensures AtDepth([d] + dirs, depth) == (if |d.Abs()| == depth then [d] else []) + AtDepth(dirs, depth)
  {
    assert ([d] + dirs)[1..] == dirs;
  }

  lemma InFrontOfShallower(d: IndexedDir, sorted: seq<IndexedDir>, depth: nat)
    requires Descending(sorted) && (sorted == [] || |sorted[0].Abs()| < |d.Abs()|)
    ensures AtDepth([d] + sorted, depth) == AtDepth(sorted, depth) + if |d.Abs()| == depth then [d] else []
  {
    AtDepthCons(d, sorted, depth);
    if |d.Abs()| == depth {
      NoneAtDepth(sorted, depth);
    }
  }

  lemma BehindHead(head: IndexedDir, rest: seq<IndexedDir>, placed: seq<IndexedDir>, own: seq<IndexedDir>, depth: nat)
    requires AtDepth(placed, depth) == AtDepth(rest, depth) + own
    ensures AtDepth([head] + placed, depth) == AtDepth([head] + rest, depth) + own
  {
    AtDepthCons(head, placed, depth);
    AtDepthCons(head, rest, depth);
  }

  lemma {:induction false} PlaceIsStable(d: IndexedDir, sorted: seq<IndexedDir>, depth: nat)
    requires Descending(sorted)
    ensures AtDepth(Place(d, sorted), depth) == AtDepth(sorted, depth) + if |d.Abs()| == depth then [d] else []
  {
    hide AtDepth;
    if sorted == [] || |sorted[0].Abs()| < |d.Abs()| {
      InFrontOfShallower(d, sorted, depth);
    } else {
      PlaceIsStable(d, sorted[1..], depth);
      BehindHead(sorted[0], sorted[1..], Place(d, sorted[1..]), if |d.Abs()| == depth then [d] else [], depth);
      assert [sorted[0]] + sorted[1..] == sorted;
    }
  }

  /// The sort is stable: directories of equal depth keep their order.
  lemma {:induction false} DeepestFirstIsStable(dirs: seq<IndexedDir>, depth: nat)
    ensures AtDepth(DeepestFirst(dirs), depth) == AtDepth(dirs, depth)
  {
    hide Descending, Place, AtDepth;
    if dirs != [] {
      var before, last := dirs[..|dirs| - 1], dirs[|dirs| - 1];
      DeepestFirstIsStable(before, depth);
      PlaceIsStable(last, DeepestFirst(before), depth);
      AtDepthSnoc(before, last, depth);
      assert dirs == before + [last];
    }
  }

  predicate Descending(dirs: seq<IndexedDir>) {
    forall i, j :: 0 <= i < j < |dirs| ==> |dirs[i].Abs()| >= |dirs[j].Abs()|
  }

  /// p.relative_to(dir) succeeds.
  predicate Under(d: IndexedDir, p: Path, absolute: bool) {
    if absolute then d.Abs() <= p else d.rel <= p
  }

  function Length(d: IndexedDir, absolute: bool): nat {
    if absolute then |d.Abs()| else |d.rel|
  }

  /// The directory whose name answers the query.
  predicate FirstHit(dirs: seq<IndexedDir>, p: Path, absolute: bool, k: nat) {
    k < |dirs| && Under(dirs[k], p, absolute) && forall j :: 0 <= j < k ==> !Under(dirs[j], p, absolute)
  }

  /// ComponentIndex, as far as owner_of_path is concerned.
  class OwnerIndex {
    const dirsByDepth: seq<IndexedDir>

    constructor (dirs: seq<IndexedDir>)
      ensures dirsByDepth == DeepestFirst(dirs)
    {
      dirsByDepth := DeepestFirst(dirs);
    }

    method OwnerOfPath(p: Path, absolute: bool) returns (owner: Option<Name>)
      ensures owner.None? <==> forall k :: 0 <= k < |dirsByDepth| ==> !Under(dirsByDepth[k], p, absolute)
      ensures owner.Some? ==> exists k: nat :: FirstHit(dirsByDepth, p, absolute, k) && dirsByDepth[k].name == owner.value
    {
      for k := 0 to |dirsByDepth|
        invariant forall j :: 0 <= j < k ==> !Under(dirsByDepth[j], p, absolute)
      {
        if Under(dirsByDepth[k], p, absolute) {
          assert FirstHit(dirsByDepth, p, absolute, k);
          return Some(dirsByDepth[k].name);
        }
      }
      return None;
    }
  }

  /// No indexed directory above the path is longer than the one found.
  ghost predicate Longest(dirs: seq<IndexedDir>, p: Path, absolute: bool, k: nat)
    requires k < |dirs|
  {
    forall j :: 0 <= j < |dirs| && Under(dirs[j], p, absolute) ==> Length(dirs[j], absolute) <= Length(dirs[k], absolute)
  }

  /// An absolute path is owned by the longest indexed directory above it.
  lemma AbsoluteIsLongest(dirs: seq<IndexedDir>, p: Path, k: nat)
    requires Descending(dirs) && FirstHit(dirs, p, true, k)
    ensures Longest(dirs, p, true, k)
  {
    forall j | 0 <= j < |dirs| && Under(dirs[j], p, true)
      ensures Length(dirs[j], true) <= Length(dirs[k], true)
    {
      assert k <= j;
    }
  }

  /// A directory tried earlier never lies, root-relatively, above a later one.
  predicate NoInversion(dirs: seq<IndexedDir>) {
    forall i, j :: 0 <= i < j < |dirs| ==> !(dirs[i].rel < dirs[j].rel)
  }

  predicate DistinctRels(dirs: seq<IndexedDir>) {
    forall i, j :: 0 <= i < j < |dirs| ==> dirs[i].rel != dirs[j].rel
  }

  ghost predicate RelativeAlwaysLongest(dirs: seq<IndexedDir>) {
    forall p: Path, k: nat :: FirstHit(dirs, p, false, k) ==> Longest(dirs, p, false, k)
  }

  lemma NoInversionIsLongest(dirs: seq<IndexedDir>, p: Path, k: nat)
    requires NoInversion(dirs) && FirstHit(dirs, p, false, k)
    ensures Longest(dirs, p, false, k)
  {
    forall j | 0 <= j < |dirs| && Under(dirs[j], p, false)
      ensures |dirs[j].rel| <= |dirs[k].rel|
    {
      assert k <= j;
      var a, b := dirs[k].rel, dirs[j].rel;
      assert p[..|a|] == a && p[..|b|] == b;
      assert !(a < b);
    }
  }

  lemma SomeFirstHit(dirs: seq<IndexedDir>, p: Path, i: nat) returns (k: nat)
    requires i < |dirs| && Under(dirs[i], p, false)
    ensures k <= i && FirstHit(dirs, p, false, k)
  {
    k := 0;
    while !Under(dirs[k], p, false)
      invariant k <= i && forall j :: 0 <= j < k ==> !Under(dirs[j], p, false)
      decreases i - k
    {
      k := k + 1;
    }
  }

  /// Root-relative queries always find the longest directory exactly when no
  /// directory that is tried earlier lies above one that is tried later.
  lemma RelativeIsLongestIff(dirs: seq<IndexedDir>)
    requires DistinctRels(dirs)
    ensures RelativeAlwaysLongest(dirs) <==> NoInversion(dirs)
  {
    if NoInversion(dirs) {
      forall p: Path, k: nat | FirstHit(dirs, p, false, k)
        ensures Longest(dirs, p, false, k)
      {
        NoInversionIsLongest(dirs, p, k);
      }
    }
    if RelativeAlwaysLongest(dirs) && !NoInversion(dirs) {
      var i, j :| 0 <= i < j < |dirs| && dirs[i].rel < dirs[j].rel;
      var p := dirs[j].rel;
      var k := SomeFirstHit(dirs, p, i);
      assert Under(dirs[j], p, false);
      assert false;
    }
  }

  /// Roots of one depth, a single root in particular, are always safe.
  lemma EqualRootDepthsSuffice(dirs: seq<IndexedDir>, depth: nat)
    requires Descending(dirs) && forall d :: d in dirs ==> |d.root| == depth
    ensures NoInversion(dirs)
  {
    forall i, j | 0 <= i < j < |dirs|
      ensures !(dirs[i].rel < dirs[j].rel)
    {
      assert |dirs[i].root| == depth && |dirs[j].root| == depth;
      assert |dirs[i].Abs()| >= |dirs[j].Abs()|;
    }
  }

  // --- the directories of a built index -------------------------------------------------

  /// candidates: the platform directories of an entry, then its component directory.
  function EntryDirs(name: Name, e: Entry, platforms: seq<Name>): seq<IndexedDir> {
    PlatformPart(name, e, platforms)
    + match e.componentDir
      case Some(dir) => if e.root <= dir then [IndexedDir(e.root, dir[|e.root|..], name)] else []
      case None => []
  }

  function PlatformPart(name: Name, e: Entry, platforms: seq<Name>): seq<IndexedDir> {
    if platforms == [] then []
    else
      PlatformPart(name, e, platforms[..|platforms| - 1])
      + var plat := platforms[|platforms| - 1];
        if plat in e.platformDirs && e.root <= e.platformDirs[plat]
        then [IndexedDir(e.root, e.platformDirs[plat][|e.root|..], name)]
        else []
  }

  /// Every indexed directory is called what its component is called.
  predicate CalledAfterDir(d: IndexedDir) {
    d.rel != [] && LastPart(d.rel) == d.name
  }

  lemma {:induction false} PlatformPartIsNamed(root: Path, leaves: seq<Path>, seen: set<(Name, Name)>, name: Name, platforms: seq<Name>)
    requires Named(leaves)
    ensures forall d :: d in PlatformPart(name, EntryOf(root, leaves, seen, name), platforms) ==> CalledAfterDir(d)
  {
    if platforms != [] {
      PlatformPartIsNamed(root, leaves, seen, name, platforms[..|platforms| - 1]);
    }
  }

  /// The owner of a path is the last part of the directory that matched, so the
  /// directory alone decides it.
  lemma EntryDirsAreNamed(root: Path, leaves: seq<Path>, seen: set<(Name, Name)>, name: Name, platforms: seq<Name>)
    requires Named(leaves)
    ensures forall d :: d in EntryDirs(name, EntryOf(root, leaves, seen, name), platforms) ==> CalledAfterDir(d)
  {
    PlatformPartIsNamed(root, leaves, seen, name, platforms);
    var e := EntryOf(root, leaves, seen, name);
    if e.componentDir.Some? {
      var i :| 0 <= i < |leaves| && LastPart(leaves[i]) == name && e.componentDir.value == root + ["components"] + leaves[i];
      assert e.componentDir.value[|root|..] == ["components"] + leaves[i];
    }
  }

  /// Every entry came out of a scan.
  ghost predicate FromScans(index: map<Name, Entry>) {
    forall name :: name in index ==> FromScan(name, index[name])
  }

  ghost predicate FromScan(name: Name, e: Entry) {
    exists leaves: seq<Path>, seen: set<(Name, Name)> :: Named(leaves) && e == EntryOf(e.root, leaves, seen, name)
  }

  lemma BuiltFromScans(roots: seq<Path>, disk: map<Path, RootFs>, platforms: seq<Name>, index: map<Name, Entry>)
    requires RootsOk(roots, disk) && Merged(Results(roots, disk, platforms), index)
    ensures FromScans(index)
  {
    var results := Results(roots, disk, platforms);
    forall name | name in index
      ensures FromScan(name, index[name])
    {
      var i: nat :| FoundAt(results, name, i);
      ScannedIsFromScan(roots[i], disk[roots[i]], platforms, name);
    }
  }

  lemma ScannedIsFromScan(root: Path, fs: RootFs, platforms: seq<Name>, name: Name)
    requires FsOk(fs) && ScanResult(root, fs, platforms).Some? && name in ScanResult(root, fs, platforms).value
    ensures FromScan(name, ScanResult(root, fs, platforms).value[name])
  {
    LeavesAreNamed(fs);
    assert ScanResult(root, fs, platforms).value[name] == EntryOf(root, Leaves(fs), AllSeen(fs, platforms), name);
  }

  /// All triples, entries taken in the given dict order.
  function AllDirs(order: seq<Name>, index: map<Name, Entry>, platforms: seq<Name>): seq<IndexedDir>
    requires forall name :: name in order ==> name in index
  {
    if order == [] then []
    else
      var last := order[|order| - 1];
      AllDirs(order[..|order| - 1], index, platforms) + EntryDirs(last, index[last], platforms)
  }

  /// The entry's component directory, or its directory for one of the platforms.
  predicate Holds(e: Entry, platforms: seq<Name>, dir: Path) {
    e.componentDir == Some(dir) || exists plat :: plat in platforms && plat in e.platformDirs && e.platformDirs[plat] == dir
  }

  lemma {:induction false} PlatformPartHolds(name: Name, e: Entry, platforms: seq<Name>, d: IndexedDir)
    requires forall plat :: plat in e.platformDirs ==> e.root <= e.platformDirs[plat]
    ensures d in PlatformPart(name, e, platforms) <==>
              && d.name == name && d.root == e.root
              && exists plat :: plat in platforms && plat in e.platformDirs && e.platformDirs[plat] == d.Abs()
  {
    if platforms != [] {
      var fewer, plat := platforms[..|platforms| - 1], platforms[|platforms| - 1];
      PlatformPartHolds(name, e, fewer, d);
      assert platforms == fewer + [plat];
      if plat in e.platformDirs && e.platformDirs[plat] == d.Abs() && d.root == e.root && d.name == name {
        assert d.Abs()[|d.root|..] == d.rel;
      }
    }
  }

  lemma EntryHolds(name: Name, e: Entry, platforms: seq<Name>, d: IndexedDir)
    requires FromScan(name, e)
    ensures d in EntryDirs(name, e, platforms) <==> d.name == name && d.root == e.root && Holds(e, platforms, d.Abs())
  {
    var leaves, seen :| Named(leaves) && e == EntryOf(e.root, leaves, seen, name);
    PlatformPartHolds(name, e, platforms, d);
    if e.componentDir.Some? {
      var i :| 0 <= i < |leaves| && e.componentDir.value == e.root + ["components"] + leaves[i];
      var own := IndexedDir(e.root, ["components"] + leaves[i], name);
      assert e.componentDir.value[|e.root|..] == own.rel;
      assert EntryDirs(name, e, platforms) == PlatformPart(name, e, platforms) + [own];
      assert own.Abs() == e.componentDir.value;
      if d.Abs() == own.Abs() && d.root == e.root {
        assert d.Abs()[|d.root|..] == d.rel;
      }
    }
  }

  lemma {:induction false} AllDirsHold(order: seq<Name>, index: map<Name, Entry>, platforms: seq<Name>, d: IndexedDir)
    requires FromScans(index) && forall name :: name in order ==> name in index
    ensures d in AllDirs(order, index, platforms) <==>
              d.name in order && d.root == index[d.name].root && Holds(index[d.name], platforms, d.Abs())
  {
    hide EntryDirs, Holds, FromScan;
    if order != [] {
      var fewer, last := order[..|order| - 1], order[|order| - 1];
      AllDirsHold(fewer, index, platforms, d);
      EntryHolds(last, index[last], platforms, d);
      assert order == fewer + [last];
    }
  }

  /// What is searched on a built index: exactly the component and platform directories of its
  /// entries, each under its entry's root and name.
  lemma SearchedDirsAre(roots: seq<Path>, disk: map<Path, RootFs>, platforms: seq<Name>,
                        index: map<Name, Entry>, order: seq<Name>, d: IndexedDir)
    requires RootsOk(roots, disk) && Merged(Results(roots, disk, platforms), index)
    requires forall name :: name in order ==> name in index
    ensures d in DeepestFirst(AllDirs(order, index, platforms)) <==>
              d.name in order && d.root == index[d.name].root && Holds(index[d.name], platforms, d.Abs())
  {
    BuiltFromScans(roots, disk, platforms, index);
    AllDirsHold(order, index, platforms, d);
    var dirs := AllDirs(order, index, platforms);
    assert d in DeepestFirst(dirs) <==> d in multiset(DeepestFirst(dirs));
  }

  lemma {:induction false} PlatformRels(root: Path, leaves: seq<Path>, seen: set<(Name, Name)>, name: Name, platforms: seq<Name>)
    requires Named(leaves) && NoRepeats(platforms)
    ensures var dirs := PlatformPart(name, EntryOf(root, leaves, seen, name), platforms);
            && DistinctRels(dirs)
            && forall d :: d in dirs ==> d.name == name && |d.rel| == 3 && d.rel[0] == "platform" && d.rel[1] in platforms
  {
    if platforms != [] {
      var fewer, plat := platforms[..|platforms| - 1], platforms[|platforms| - 1];
      PlatformRels(root, leaves, seen, name, fewer);
      assert plat !in fewer;
      var e := EntryOf(root, leaves, seen, name);
      if plat in e.platformDirs {
        assert e.platformDirs[plat][|root|..] == ["platform", plat, name];
      }
    }
  }

  lemma EntryRelsDistinct(name: Name, e: Entry, platforms: seq<Name>)
    requires FromScan(name, e) && NoRepeats(platforms)
    ensures var dirs := EntryDirs(name, e, platforms);
            && DistinctRels(dirs)
            && forall d :: d in dirs ==> d.name == name && CalledAfterDir(d)
  {
    var leaves, seen :| Named(leaves) && e == EntryOf(e.root, leaves, seen, name);
    PlatformRels(e.root, leaves, seen, name, platforms);
    EntryDirsAreNamed(e.root, leaves, seen, name, platforms);
    if e.componentDir.Some? {
      var i :| 0 <= i < |leaves| && LastPart(leaves[i]) == name && e.componentDir.value == e.root + ["components"] + leaves[i];
      assert e.componentDir.value[|e.root|..] == ["components"] + leaves[i];
      assert (["components"] + leaves[i])[0] == "components";
    }
  }

  lemma {:induction false} AllRelsDistinct(order: seq<Name>, index: map<Name, Entry>, platforms: seq<Name>)
    requires forall name :: name in order ==> name in index
    requires NoRepeats(order) && NoRepeats(platforms) && FromScans(index)
    ensures var dirs := AllDirs(order, index, platforms);
            && DistinctRels(dirs)
            && forall d :: d in dirs ==> d.name in order && CalledAfterDir(d)
  {
    if order != [] {
      var fewer, last := order[..|order| - 1], order[|order| - 1];
      AllRelsDistinct(fewer, index, platforms);
      EntryRelsDistinct(last, index[last], platforms);
      assert last !in fewer;
      DistinctByName(AllDirs(fewer, index, platforms), EntryDirs(last, index[last], platforms), last);
    }
  }

  lemma DistinctByName(a: seq<IndexedDir>, b: seq<IndexedDir>, name: Name)
    requires DistinctRels(a) && DistinctRels(b)
    requires forall d :: d in a ==> d.name != name && CalledAfterDir(d)
    requires forall d :: d in b ==> d.name == name && CalledAfterDir(d)
    ensures DistinctRels(a + b)
  {
    forall i, j | 0 <= i < |a| && 0 <= j < |b|
      ensures a[i].rel != b[j].rel
    {
      assert a[i] in a && b[j] in b;
    }
  }

  lemma SortingKeepsRelsDistinct(dirs: seq<IndexedDir>)
    requires DistinctRels(dirs)
    ensures DistinctRels(DeepestFirst(dirs))
  {
    var sorted := DeepestFirst(dirs);
    PermutedHasNoRepeats(dirs, sorted);
    forall i, j | 0 <= i < j < |sorted|
      ensures sorted[i].rel != sorted[j].rel
    {
      StillThere(dirs, sorted, i);
      StillThere(dirs, sorted, j);
      assert sorted[i] != sorted[j];
    }
  }

  lemma StillThere(dirs: seq<IndexedDir>, sorted: seq<IndexedDir>, i: nat)
    requires multiset(sorted) == multiset(dirs) && i < |sorted|
    ensures exists a :: 0 <= a < |dirs| && dirs[a] == sorted[i]
  {
    assert sorted[i] in multiset(sorted);
    assert sorted[i] in dirs;
  }

  /// On every index that can be built: root-relative ownership is by longest prefix exactly
  /// when the sorted directories have no inversion.
  lemma BuiltIndexLongestIff(roots: seq<Path>, disk: map<Path, RootFs>, platforms: seq<Name>,
                             index: map<Name, Entry>, order: seq<Name>)
    requires RootsOk(roots, disk) && Merged(Results(roots, disk, platforms), index)
    requires NoRepeats(order) && NoRepeats(platforms) && forall name :: name in order ==> name in index
    ensures var sorted := DeepestFirst(AllDirs(order, index, platforms));
            RelativeAlwaysLongest(sorted) <==> NoInversion(sorted)
  {
    BuiltFromScans(roots, disk, platforms, index);
    AllRelsDistinct(order, index, platforms);
    SortingKeepsRelsDistinct(AllDirs(order, index, platforms));
    RelativeIsLongestIff(DeepestFirst(AllDirs(order, index, platforms)));
  }

  /// Two indexed directories of one length above the same absolute path carry the
  /// same name: the owner does not depend on the order of equally deep directories.
  lemma OwnerIsDetermined(dirs: seq<IndexedDir>, p: Path, i: nat, j: nat)
    requires i < |dirs| && j < |dirs| && CalledAfterDir(dirs[i]) && CalledAfterDir(dirs[j])
    requires Under(dirs[i], p, true) && Under(dirs[j], p, true)
    requires |dirs[i].Abs()| == |dirs[j].Abs()|
    ensures dirs[i].name == dirs[j].name
  {
    var a, b := dirs[i].Abs(), dirs[j].Abs();
    assert a == p[..|a|] == b;
    assert LastPart(a) == LastPart(dirs[i].rel) && LastPart(b) == LastPart(dirs[j].rel);
  }

  // --- two roots for which the shorter directory wins -------------------------------------

  const SHALLOW_ROOT: Path := ["r"]
  const DEEP_ROOT: Path := ["srv", "deep", "tree"]

  /// components/x/y is a component, and components/x is.
  const NESTED: RootFs := RootFs(
    map[0 := Dir(false, ["x"], map["x" := 1]), 1 := Dir(false, ["y"], map["y" := 2]), 2 := Dir(true, [], map[])], Some(0), map[])
  const FLAT: RootFs := RootFs(
    map[0 := Dir(false, ["x"], map["x" := 1]), 1 := Dir(true, [], map[])], Some(0), map[])

  const ROOTS: seq<Path> := [SHALLOW_ROOT, DEEP_ROOT]
  const DISK: map<Path, RootFs> := map[SHALLOW_ROOT := NESTED, DEEP_ROOT := FLAT]

  lemma WalkOneName(tree: Tree, n: nat, x: Name, ancestors: set<nat>)
    requires Resolved(tree) && n in tree && x in tree[n].target && !Hidden(x)
    ensures var t := tree[n].target[x];
            WalkNames(tree, n, [x], ancestors) == if tree[t].cmake then [[x]] else Prefixed(x, Walk(tree, t, ancestors))
  {
    hide Resolved, Walk;
    assert [x][1..] == [];
    assert WalkNames(tree, n, [], ancestors) == [];
  }

  lemma OnlyChild(tree: Tree, n: nat, x: Name, ancestors: set<nat>)
    requires Resolved(tree) && n in tree && n !in ancestors && tree[n].listing == [x] && !Hidden(x)
    ensures x in tree[n].target
    ensures var t := tree[n].target[x];
            Walk(tree, n, ancestors) == if tree[t].cmake then [[x]] else Prefixed(x, Walk(tree, t, ancestors + {n}))
  {
    assert x in tree[n].listing;
    SortedOne(x);
    WalkOneName(tree, n, x, ancestors + {n});
    hide Resolved, WalkNames, Sorted;
  }

  lemma PrefixedOne(x: Name, p: Path)
    ensures Prefixed(x, [p]) == [[x] + p]
  {}

  lemma NestedInner()
    ensures FsOk(NESTED) && Walk(NESTED.tree, 1, {0}) == [["y"]]
  {
    assert FsOk(NESTED);
    hide Walk, Resolved;
    OnlyChild(NESTED.tree, 1, "y", {0});
  }

  lemma NestedLeaves()
    ensures FsOk(NESTED) && Leaves(NESTED) == [["x", "y"]]
  {
    NestedInner();
    hide Walk, Resolved, Prefixed;
    OnlyChild(NESTED.tree, 0, "x", {});
    assert {} + {0} == {0};
    PrefixedOne("x", ["y"]);
    assert ["x"] + ["y"] == ["x", "y"];
  }

  lemma FlatLeaves()
    ensures FsOk(FLAT) && Leaves(FLAT) == [["x"]]
  {
    assert FsOk(FLAT);
    hide Walk, Resolved;
    OnlyChild(FLAT.tree, 0, "x", {});
  }

  lemma OneLeafScan(root: Path, fs: RootFs, leaf: Path)
    requires FsOk(fs) && Leaves(fs) == [leaf] && leaf != []
    ensures ScanResult(root, fs, []) ==
            Some(map[LastPart(leaf) := Entry(root, Some(root + ["components"] + leaf), map[])])
  {
    LeavesAreNamed(fs);
    var name := LastPart(leaf);
    hide Leaves, FsOk;
    assert !Clash([leaf]);
    assert AllSeen(fs, []) == {};
    assert NamesIn([leaf], {}) == {name} by {
      assert LastPart([leaf][0]) == name;
    }
    assert PlatformDirs(root, {}, name) == map[];
    assert EntryOf(root, [leaf], {}, name) == Entry(root, Some(root + ["components"] + leaf), map[]);
    assert Table(root, [leaf], {}) == map[name := EntryOf(root, [leaf], {}, name)];
  }

  lemma OneLeafDirs(root: Path, leaf: Path, name: Name)
    ensures EntryDirs(name, Entry(root, Some(root + ["components"] + leaf), map[]), []) ==
            [IndexedDir(root, ["components"] + leaf, name)]
  {
    assert (root + ["components"] + leaf)[|root|..] == ["components"] + leaf;
  }

  lemma DeeperFirst(a: IndexedDir, b: IndexedDir)
    requires |a.Abs()| < |b.Abs()|
    ensures DeepestFirst([a] + [b]) == [b, a]
  {
    assert [a][..0] == [];
    assert DeepestFirst([a]) == [a];
    assert ([a] + [b])[..1] == [a];
  }

  lemma ShorterWins(a: IndexedDir, b: IndexedDir, p: Path)
    requires a.rel <= p && b.rel <= p && |b.rel| < |a.rel| && |a.Abs()| < |b.Abs()|
    ensures var dirs := DeepestFirst([a] + [b]);
            dirs == [b, a] && FirstHit(dirs, p, false, 0) && Under(dirs[1], p, false) && !Longest(dirs, p, false, 0)
  {
    DeeperFirst(a, b);
    var dirs := DeepestFirst([a] + [b]);
    assert Under(dirs[1], p, false) && Length(dirs[1], false) > Length(dirs[0], false);
  }

  lemma TwoScans(results: Scans, a: Name, e: Entry, b: Name, f: Entry)
    requires a != b && results == [Some(map[a := e]), Some(map[b := f])]
    ensures NoClash(results) && (forall name :: !Contested(results, name)) && Merged(results, map[a := e, b := f])
  {
    assert FoundAt(results, a, 0) && FoundAt(results, b, 1);
  }

  const Y_DIR: IndexedDir := IndexedDir(SHALLOW_ROOT, ["components"] + ["x", "y"], "y")
  const X_DIR: IndexedDir := IndexedDir(DEEP_ROOT, ["components"] + ["x"], "x")
  const Y_ENTRY: Entry := Entry(SHALLOW_ROOT, Some(SHALLOW_ROOT + ["components"] + ["x", "y"]), map[])
  const X_ENTRY: Entry := Entry(DEEP_ROOT, Some(DEEP_ROOT + ["components"] + ["x"]), map[])

  lemma ExampleRootsOk()
    ensures RootsOk(ROOTS, DISK) && "x" != "y" && SHALLOW_ROOT != DEEP_ROOT
    ensures DISK[SHALLOW_ROOT] == NESTED && DISK[DEEP_ROOT] == FLAT
  {
    assert "x"[0] != "y"[0] && |SHALLOW_ROOT| != |DEEP_ROOT|;
    NestedLeaves();
    FlatLeaves();
    hide FsOk;
  }

  lemma ExampleResults()
    ensures RootsOk(ROOTS, DISK) && "x" != "y" && SHALLOW_ROOT != DEEP_ROOT
    ensures Results(ROOTS, DISK, []) == [Some(map["y" := Y_ENTRY]), Some(map["x" := X_ENTRY])]
  {
    hide FsOk, ScanResult, Leaves, RootsOk;
    ExampleRootsOk();
    NestedLeaves();
    FlatLeaves();
    OneLeafScan(SHALLOW_ROOT, NESTED, ["x", "y"]);
    OneLeafScan(DEEP_ROOT, FLAT, ["x"]);
    TwoResults(SHALLOW_ROOT, DEEP_ROOT, DISK);
  }

  lemma TwoResults(a: Path, b: Path, disk: map<Path, RootFs>)
    requires RootsOk([a, b], disk)
    ensures a in disk && FsOk(disk[a]) && b in disk && FsOk(disk[b])
    ensures Results([a, b], disk, []) == [ScanResult(a, disk[a], []), ScanResult(b, disk[b], [])]
  {
    assert a in [a, b] && b in [a, b];
    hide FsOk, ScanResult;
  }

  lemma ExampleDirs(index: map<Name, Entry>)
    requires index == map["y" := Y_ENTRY, "x" := X_ENTRY] && "x" != "y"
    ensures AllDirs(["y", "x"], index, []) == [Y_DIR] + [X_DIR]
  {
    OneLeafDirs(SHALLOW_ROOT, ["x", "y"], "y");
    OneLeafDirs(DEEP_ROOT, ["x"], "x");
    assert ["y", "x"][..1] == ["y"] && ["y"][..0] == [];
    assert AllDirs(["y"], index, []) == [Y_DIR];
  }

  /// Two roots, /r and /srv/deep/tree, with the components components/x/y and components/x:
  /// build_index accepts them, and the file components/x/y/f is attributed to x, not to y.
  lemma RelativeOwnerCanBeShorter() returns (index: map<Name, Entry>)
    ensures NoRepeats(ROOTS) && RootsOk(ROOTS, DISK)
    ensures var results := Results(ROOTS, DISK, []);
            NoClash(results) && (forall name :: !Contested(results, name)) && Merged(results, index)
    ensures index.Keys == {"x", "y"}
    ensures var dirs := DeepestFirst(AllDirs(["y", "x"], index, [])); var p := ["components", "x", "y", "f"];
            && dirs == [X_DIR, Y_DIR] && FirstHit(dirs, p, false, 0)
            && Under(Y_DIR, p, false) && !Longest(dirs, p, false, 0)
  {
    hide DeepestFirst, AllDirs, Results, FsOk, Merged, Contested;
    ExampleResults();
    TwoScans(Results(ROOTS, DISK, []), "y", Y_ENTRY, "x", X_ENTRY);
    index := map["y" := Y_ENTRY, "x" := X_ENTRY];
    ExampleDirs(index);
    var p := ["components", "x", "y", "f"];
    assert p[..3] == Y_DIR.rel && p[..2] == X_DIR.rel;
    ShorterWins(Y_DIR, X_DIR, p);
  }
}
