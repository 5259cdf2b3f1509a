/// The name -> directory index of scripts/bbtool/discovery.py, built over one or
/// more roots, and the longest-prefix owner query on it.
module ComponentIndex {
  import opened Names
  import opened Wrappers
  import opened LeafWalk

  /// What a scan reads below one root: the directory graph and the node of
  /// `components`, if there is one, and the subdirectories of each existing
  /// `platform/<plat>`.
  datatype RootFs = RootFs(tree: Tree, components: Option<nat>, platformChildren: map<Name, seq<Name>>)

  /// component_dir and platform_dirs, absolute.
  datatype Entry = Entry(root: Path, componentDir: Option<Path>, platformDirs: map<Name, Path>)

  datatype Failure = WithinRoot(root: Path) | AcrossRoots(names: set<Name>)

  ghost predicate FsOk(fs: RootFs) {
    && Resolved(fs.tree)
    && (fs.components.Some? ==> fs.components.value in fs.tree)
  }

  function Leaves(fs: RootFs): seq<Path>
    requires FsOk(fs)
  {
    LeafDirs(fs.tree, fs.components)
  }

  function LastPart(p: Path): Name
    requires p != []
  {
    p[|p| - 1]
  }

  predicate Named(leaves: seq<Path>) {
    forall i :: 0 <= i < |leaves| ==> leaves[i] != []
  }

  lemma LeavesAreNamed(fs: RootFs)
    requires FsOk(fs)
    ensures Named(Leaves(fs))
  {
    if fs.components.Some? {
      forall i | 0 <= i < |Leaves(fs)|
        ensures Leaves(fs)[i] != []
      {
        YieldsExactlyLeafPaths(fs.tree, fs.components.value, Leaves(fs)[i]);
      }
    }
  }

  function DirsUnder(fs: RootFs, plat: Name): seq<Name> {
    if plat in fs.platformChildren then fs.platformChildren[plat] else []
  }

  // --- one root ----------------------------------------------------------------------

  /// Two leaves share a name.
  predicate Clash(leaves: seq<Path>)
    requires Named(leaves)
  {
    exists i, j :: 0 <= i < j < |leaves| && LastPart(leaves[i]) == LastPart(leaves[j])
  }

  function LeafDirOf(root: Path, leaves: seq<Path>, name: Name): (r: Option<Path>)
    requires Named(leaves)
    ensures r.None? <==> forall i :: 0 <= i < |leaves| ==> LastPart(leaves[i]) != name
    ensures r.Some? ==> exists i :: 0 <= i < |leaves| && LastPart(leaves[i]) == name && r.value == root + ["components"] + leaves[i]
  {
    if leaves == [] then None
    else
      var last := leaves[|leaves| - 1];
      if LastPart(last) == name then Some(root + ["components"] + last)
      else LeafDirOf(root, leaves[..|leaves| - 1], name)
  }

  function PlatformDir(root: Path, plat: Name, name: Name): Path {
    root + ["platform", plat, name]
  }

  /// The raw table after the given leaves and (platform, name) directories.
  function Table(root: Path, leaves: seq<Path>, seen: set<(Name, Name)>): map<Name, Entry>
    requires Named(leaves)
  {
    map name | name in NamesIn(leaves, seen) :: EntryOf(root, leaves, seen, name)
  }

  function NamesIn(leaves: seq<Path>, seen: set<(Name, Name)>): set<Name>
    requires Named(leaves)
  {
    (set i | 0 <= i < |leaves| :: LastPart(leaves[i])) + (set s | s in seen :: s.1)
  }

  function EntryOf(root: Path, leaves: seq<Path>, seen: set<(Name, Name)>, name: Name): Entry
    requires Named(leaves)
  {
    Entry(root, LeafDirOf(root, leaves, name), PlatformDirs(root, seen, name))
  }

  function PlatformDirs(root: Path, seen: set<(Name, Name)>, name: Name): map<Name, Path> {
    map plat | plat in (set s | s in seen && s.1 == name :: s.0) :: PlatformDir(root, plat, name)
  }

  function AllSeen(fs: RootFs, platforms: seq<Name>): set<(Name, Name)> {
    set k, c | 0 <= k < |platforms| && 0 <= c < |DirsUnder(fs, platforms[k])| :: (platforms[k], DirsUnder(fs, platforms[k])[c])
  }

  /// _scan_root: None is the CollisionError, raised when two leaves share a name.
  function ScanResult(root: Path, fs: RootFs, platforms: seq<Name>): Option<map<Name, Entry>>
    requires FsOk(fs)
  {
    LeavesAreNamed(fs);
    if Clash(Leaves(fs)) then None else Some(Table(root, Leaves(fs), AllSeen(fs, platforms)))
  }

  /// The root holds a directory of this name for the platform.
  predicate HasPlatformDir(fs: RootFs, platforms: seq<Name>, plat: Name, name: Name) {
    plat in platforms && plat in fs.platformChildren && name in fs.platformChildren[plat]
  }

  /// A leaf directory of this name.
  predicate IsLeafOf(fs: RootFs, leaf: Path, name: Name)
    requires FsOk(fs)
  {
    leaf in Leaves(fs) && leaf != [] && leaf[|leaf| - 1] == name
  }

  lemma SeenIs(fs: RootFs, platforms: seq<Name>, plat: Name, name: Name)
    ensures (plat, name) in AllSeen(fs, platforms) <==> HasPlatformDir(fs, platforms, plat, name)
  {
    if HasPlatformDir(fs, platforms, plat, name) {
      var k :| 0 <= k < |platforms| && platforms[k] == plat;
      var c :| 0 <= c < |DirsUnder(fs, platforms[k])| && DirsUnder(fs, platforms[k])[c] == name;
    }
  }

  lemma LeafHasName(fs: RootFs, i: nat)
    requires FsOk(fs) && i < |Leaves(fs)|
    ensures Leaves(fs)[i] != [] && IsLeafOf(fs, Leaves(fs)[i], LastPart(Leaves(fs)[i]))
  {
    LeavesAreNamed(fs);
  }

  /// A scan that succeeds holds exactly the names carried by a leaf or by a platform directory,
  /// each with the root, that leaf and those directories.
  lemma ScanHolds(root: Path, fs: RootFs, platforms: seq<Name>, name: Name)
    requires FsOk(fs) && ScanResult(root, fs, platforms).Some?
    ensures var scan := ScanResult(root, fs, platforms).value;
            && (name in scan <==>
                  (exists leaf :: IsLeafOf(fs, leaf, name)) || (exists plat :: HasPlatformDir(fs, platforms, plat, name)))
            && (name in scan ==>
                  && scan[name].root == root
                  && (forall dir :: scan[name].componentDir == Some(dir) <==>
                        exists leaf :: IsLeafOf(fs, leaf, name) && dir == root + ["components"] + leaf)
                  && (forall plat :: plat in scan[name].platformDirs <==> HasPlatformDir(fs, platforms, plat, name))
                  && (forall plat :: plat in scan[name].platformDirs ==>
                        scan[name].platformDirs[plat] == root + ["platform", plat, name]))
  {
    LeavesAreNamed(fs);
    ScanNames(root, fs, platforms, name);
    var leaves, seen := Leaves(fs), AllSeen(fs, platforms);
    ScanLeafDir(root, fs, platforms, name);
    forall plat ensures (plat, name) in seen <==> HasPlatformDir(fs, platforms, plat, name) {
      SeenIs(fs, platforms, plat, name);
    }
    var dirs := PlatformDirs(root, seen, name);
    forall plat ensures plat in dirs <==> (plat, name) in seen {
      if (plat, name) in seen {
        assert (plat, name).0 == plat;
      }
    }
  }

  lemma ScanNames(root: Path, fs: RootFs, platforms: seq<Name>, name: Name)
    requires FsOk(fs) && Named(Leaves(fs))
    ensures name in NamesIn(Leaves(fs), AllSeen(fs, platforms)) <==>
              (exists leaf :: IsLeafOf(fs, leaf, name)) || (exists plat :: HasPlatformDir(fs, platforms, plat, name))
  {
    var leaves, seen := Leaves(fs), AllSeen(fs, platforms);
    if name in NamesIn(leaves, seen) {
      if i :| 0 <= i < |leaves| && LastPart(leaves[i]) == name {
        LeafHasName(fs, i);
      } else {
        var s :| s in seen && s.1 == name;
        SeenIs(fs, platforms, s.0, name);
      }
    }
    if leaf :| IsLeafOf(fs, leaf, name) {
      var i :| 0 <= i < |leaves| && leaves[i] == leaf;
      assert LastPart(leaves[i]) == name;
    }
    if plat :| HasPlatformDir(fs, platforms, plat, name) {
      SeenIs(fs, platforms, plat, name);
      assert (plat, name).1 == name;
    }
  }

  lemma ScanLeafDir(root: Path, fs: RootFs, platforms: seq<Name>, name: Name)
    requires FsOk(fs) && Named(Leaves(fs)) && !Clash(Leaves(fs))
    ensures forall dir :: LeafDirOf(root, Leaves(fs), name) == Some(dir) <==>
                            exists leaf :: IsLeafOf(fs, leaf, name) && dir == root + ["components"] + leaf
  {
    var leaves := Leaves(fs);
    var found := LeafDirOf(root, leaves, name);
    if found.Some? {
      var i :| 0 <= i < |leaves| && LastPart(leaves[i]) == name && found.value == root + ["components"] + leaves[i];
      LeafHasName(fs, i);
      forall leaf | IsLeafOf(fs, leaf, name) ensures leaf == leaves[i] {
        var j :| 0 <= j < |leaves| && leaves[j] == leaf;
        assert LastPart(leaves[j]) == name;
      }
    }
  }

  lemma NamesGrow(leaves: seq<Path>, leaf: Path)
    requires Named(leaves) && leaf != []
    ensures NamesIn(leaves + [leaf], {}) == NamesIn(leaves, {}) + {LastPart(leaf)}
  {
    var longer := leaves + [leaf];
    forall name
      ensures name in NamesIn(longer, {}) <==> name in NamesIn(leaves, {}) || name == LastPart(leaf)
    {
      if name in NamesIn(leaves, {}) {
        var i :| 0 <= i < |leaves| && LastPart(leaves[i]) == name;
        assert LastPart(longer[i]) == name;
      }
      if name == LastPart(leaf) {
        assert LastPart(longer[|leaves|]) == name;
      }
    }
  }

  lemma TableAddsLeaf(root: Path, leaves: seq<Path>, leaf: Path)
    requires Named(leaves) && leaf != [] && LastPart(leaf) !in NamesIn(leaves, {})
    ensures Named(leaves + [leaf])
    ensures Table(root, leaves + [leaf], {}) ==
            Table(root, leaves, {})[LastPart(leaf) := Entry(root, Some(root + ["components"] + leaf), map[])]
  {
    var longer, name := leaves + [leaf], LastPart(leaf);
    assert longer[..|leaves|] == leaves;
    NamesGrow(leaves, leaf);
    assert PlatformDirs(root, {}, name) == map[];
    forall other | other in NamesIn(leaves, {})
      ensures EntryOf(root, longer, {}, other) == EntryOf(root, leaves, {}, other)
    {
    }
  }

  function WithPlatform(table: map<Name, Entry>, root: Path, plat: Name, name: Name): map<Name, Entry> {
    var e := if name in table then table[name] else Entry(root, None, map[]);
    table[name := e.(platformDirs := e.platformDirs[plat := PlatformDir(root, plat, name)])]
  }

  lemma PlatformDirsGrow(root: Path, seen: set<(Name, Name)>, plat: Name, name: Name, other: Name)
    ensures PlatformDirs(root, seen + {(plat, name)}, other) ==
            if other == name then PlatformDirs(root, seen, name)[plat := PlatformDir(root, plat, name)]
            else PlatformDirs(root, seen, other)
  {
  }

  lemma NotInAbsent(leaves: seq<Path>, seen: set<(Name, Name)>, root: Path, name: Name)
    requires Named(leaves) && name !in NamesIn(leaves, seen)
    ensures EntryOf(root, leaves, seen, name) == Entry(root, None, map[])
  {
    assert forall i :: 0 <= i < |leaves| ==> LastPart(leaves[i]) in NamesIn(leaves, seen);
    assert PlatformDirs(root, seen, name) == map[];
  }

  lemma NamesGrowBySeen(leaves: seq<Path>, seen: set<(Name, Name)>, plat: Name, name: Name)
    requires Named(leaves)
    ensures NamesIn(leaves, seen + {(plat, name)}) == NamesIn(leaves, seen) + {name}
  {
  }

  lemma EntryAddsPlatformDir(root: Path, leaves: seq<Path>, seen: set<(Name, Name)>, plat: Name, name: Name, other: Name)
    requires Named(leaves) && other in NamesIn(leaves, seen) + {name}
    ensures EntryOf(root, leaves, seen + {(plat, name)}, other) ==
            WithPlatform(Table(root, leaves, seen), root, plat, name)[other]
  {
    PlatformDirsGrow(root, seen, plat, name, other);
    if name !in NamesIn(leaves, seen) {
      NotInAbsent(leaves, seen, root, name);
    }
  }

  lemma TableAddsPlatformDir(root: Path, leaves: seq<Path>, seen: set<(Name, Name)>, plat: Name, name: Name)
    requires Named(leaves)
    ensures Table(root, leaves, seen + {(plat, name)}) == WithPlatform(Table(root, leaves, seen), root, plat, name)
  {
    NamesGrowBySeen(leaves, seen, plat, name);
    forall other | other in NamesIn(leaves, seen) + {name}
      ensures EntryOf(root, leaves, seen + {(plat, name)}, other) ==
              WithPlatform(Table(root, leaves, seen), root, plat, name)[other]
    {
      EntryAddsPlatformDir(root, leaves, seen, plat, name, other);
    }
  }

  /// The components half of _scan_root; None is the CollisionError.
  method ScanLeaves(root: Path, leaves: seq<Path>) returns (r: Option<map<Name, Entry>>)
    requires Named(leaves)
    ensures r.None? <==> Clash(leaves)
    ensures r.Some? ==> r.value == Table(root, leaves, {})
  {
    var table: map<Name, Entry> := map[];
    assert leaves[..0] == [];
    for i := 0 to |leaves|
      invariant table == Table(root, leaves[..i], {})
      invariant !Clash(leaves[..i])
    {
      var name := LastPart(leaves[i]);
      assert leaves[..i + 1] == leaves[..i] + [leaves[i]];
      if name in table {
        ghost var k :| 0 <= k < i && LastPart(leaves[..i][k]) == name;
        assert LastPart(leaves[k]) == LastPart(leaves[i]);
        return None;
      }
      TableAddsLeaf(root, leaves[..i], leaves[i]);
      table := table[name := Entry(root, Some(root + ["components"] + leaves[i]), map[])];
    }
    assert leaves[..|leaves|] == leaves;
    return Some(table);
  }

  method ScanRoot(root: Path, fs: RootFs, platforms: seq<Name>) returns (r: Option<map<Name, Entry>>)
    requires FsOk(fs)
    ensures r == ScanResult(root, fs, platforms)
  {
    LeavesAreNamed(fs);
    var leaves := Leaves(fs);
    r := ScanLeaves(root, leaves);
    if r.None? {
      return;
    }
    var table := r.value;
    ghost var seen: set<(Name, Name)> := {};
    for k := 0 to |platforms|
      invariant seen == AllSeen(fs, platforms[..k])
      invariant table == Table(root, leaves, seen)
    {
      table, seen := ScanPlatform(root, leaves, DirsUnder(fs, platforms[k]), platforms[k], table, seen);
      assert platforms[..k + 1] == platforms[..k] + [platforms[k]];
      assert seen == AllSeen(fs, platforms[..k + 1]);
    }
    assert platforms[..|platforms|] == platforms;
    return Some(table);
  }

  method ScanPlatform(root: Path, ghost leaves: seq<Path>, children: seq<Name>, plat: Name,
                      table: map<Name, Entry>, ghost seen: set<(Name, Name)>)
    returns (r: map<Name, Entry>, ghost more: set<(Name, Name)>)
    requires Named(leaves) && table == Table(root, leaves, seen)
    ensures more == seen + Paired(plat, children)
    ensures r == Table(root, leaves, more)
  {
    r, more := table, seen;
    var sorted := Sorted(children);
    for i := 0 to |sorted|
      invariant more == seen + Paired(plat, sorted[..i])
      invariant r == Table(root, leaves, more)
    {
      TableAddsPlatformDir(root, leaves, more, plat, sorted[i]);
      r := WithPlatform(r, root, plat, sorted[i]);
      PairedGrows(plat, sorted, i);
      more := more + {(plat, sorted[i])};
    }
    assert sorted[..|sorted|] == sorted;
    PairedSorted(plat, children);
  }

  function Paired(plat: Name, names: seq<Name>): set<(Name, Name)> {
    set c | 0 <= c < |names| :: (plat, names[c])
  }

  lemma PairedGrows(plat: Name, names: seq<Name>, i: nat)
    requires i < |names|
    ensures Paired(plat, names[..i + 1]) == Paired(plat, names[..i]) + {(plat, names[i])}
  {
    assert names[..i + 1] == names[..i] + [names[i]];
    var shorter, longer := names[..i], names[..i + 1];
    forall c | 0 <= c < i
      ensures (plat, shorter[c]) in Paired(plat, longer)
    {
      assert longer[c] == shorter[c];
    }
    assert longer[i] == names[i];
  }

  lemma PairedSorted(plat: Name, names: seq<Name>)
    ensures Paired(plat, Sorted(names)) == Paired(plat, names)
  {
    SortedSameNames(names);
    forall c | 0 <= c < |names|
      ensures (plat, names[c]) in Paired(plat, Sorted(names))
    {
      assert names[c] in Sorted(names);
    }
    forall c | 0 <= c < |Sorted(names)|
      ensures (plat, Sorted(names)[c]) in Paired(plat, names)
    {
      assert Sorted(names)[c] in names;
    }
  }

  // --- several roots -------------------------------------------------------------------

  /// The first occurrence of `x` in `s` is at `i`.
  predicate FirstAt(s: seq<Path>, x: Path, i: nat) {
    i < |s| && s[i] == x && x !in s[..i]
  }

  /// The elements of `r` come in the order of their first occurrences in `s`.
  ghost predicate InFirstOrder(s: seq<Path>, r: seq<Path>) {
    forall a, b, i: nat, j: nat :: 0 <= a < b < |r| && FirstAt(s, r[a], i) && FirstAt(s, r[b], j) ==> i < j
  }

  /// list(dict.fromkeys(...)): each element once, in the order of first occurrences.
  method Deduped(s: seq<Path>) returns (r: seq<Path>)
    ensures NoRepeats(r) && InFirstOrder(s, r)
    ensures forall x :: x in r <==> x in s
  {
    r := [];
    for i := 0 to |s|
      invariant NoRepeats(r) && InFirstOrder(s, r)
      invariant forall x :: x in r <==> x in s[..i]
      invariant forall a, j: nat :: 0 <= a < |r| && FirstAt(s, r[a], j) ==> j < i
    {
      if s[i] !in r {
        r := r + [s[i]];
      }
    }
  }

  ghost predicate RootsOk(roots: seq<Path>, disk: map<Path, RootFs>) {
    forall root :: root in roots ==> root in disk && FsOk(disk[root])
  }

  /// What _scan_root says of each root, in order; None is a CollisionError.
  type Scans = seq<Option<map<Name, Entry>>>

  ghost function Results(roots: seq<Path>, disk: map<Path, RootFs>, platforms: seq<Name>): (r: Scans)
    requires RootsOk(roots, disk)
    ensures |r| == |roots|
  {
    seq(|roots|, i requires 0 <= i < |roots| => ScanResult(roots[i], disk[roots[i]], platforms))
  }

  /// Root k is the first in the list to hold two leaves of one name.
  ghost predicate FirstClash(results: Scans, k: nat) {
    k < |results| && results[k].None? && forall j :: 0 <= j < k ==> results[j].Some?
  }

  ghost predicate NoClash(results: Scans) {
    forall k :: 0 <= k < |results| ==> results[k].Some?
  }

  ghost predicate FoundAt(results: Scans, name: Name, i: nat) {
    i < |results| && results[i].Some? && name in results[i].value
  }

  /// The name is found under two roots of the list.
  ghost predicate Contested(results: Scans, name: Name) {
    exists i: nat, j: nat :: i < j && FoundAt(results, name, i) && FoundAt(results, name, j)
  }

  /// The merged index holds each name under the one root that has it.
  ghost predicate Merged(results: Scans, index: map<Name, Entry>) {
    && (forall name: Name, i: nat :: FoundAt(results, name, i) ==> name in index && index[name] == results[i].value[name])
    && (forall name :: name in index ==> exists i: nat :: FoundAt(results, name, i))
  }

  ghost predicate ScansAre(results: Scans, scans: seq<map<Name, Entry>>) {
    && |scans| <= |results|
    && forall k :: 0 <= k < |scans| ==> results[k] == Some(scans[k])
  }

  /// The scan of every root, in order; fails at the first root that clashes.
  method ScanAll(roots: seq<Path>, disk: map<Path, RootFs>, platforms: seq<Name>)
    returns (r: Result<seq<map<Name, Entry>>, Path>)
    requires RootsOk(roots, disk)
    ensures r.Failure? ==> exists k: nat :: FirstClash(Results(roots, disk, platforms), k) && roots[k] == r.error
    ensures r.Success? ==> ScansAre(Results(roots, disk, platforms), r.value) && |r.value| == |roots|
  {
    hide ScanResult, FsOk;
    ghost var results := Results(roots, disk, platforms);
    var scans: seq<map<Name, Entry>> := [];
    for k := 0 to |roots|
      invariant |scans| == k && ScansAre(results, scans)
    {
      var scan := ScanNth(roots, disk, platforms, k);
      if scan.None? {
        assert FirstClash(results, k);
        return Failure(roots[k]);
      }
      scans := scans + [scan.value];
    }
    return Success(scans);
  }

  method ScanNth(roots: seq<Path>, disk: map<Path, RootFs>, platforms: seq<Name>, k: nat) returns (scan: Option<map<Name, Entry>>)
    requires RootsOk(roots, disk) && k < |roots|
    ensures scan == Results(roots, disk, platforms)[k]
  {
    scan := ScanRoot(roots[k], disk[roots[k]], platforms);
  }

  /// owner_roots, reduced to the names with more than one owner.
  method FindContested(scans: seq<map<Name, Entry>>) returns (contested: set<Name>)
    ensures forall name :: name in contested <==> InTwo(scans, name)
  {
    var owned: set<Name> := {};
    contested := {};
    for k := 0 to |scans|
      invariant forall name :: name in owned <==> exists i :: 0 <= i < k && name in scans[i]
      invariant forall name :: name in contested <==>
                                 exists i, j :: 0 <= i < j < k && name in scans[i] && name in scans[j]
    {
      contested := contested + owned * scans[k].Keys;
      owned := owned + scans[k].Keys;
    }
  }

  method MergeScans(scans: seq<map<Name, Entry>>) returns (index: map<Name, Entry>)
    requires forall name :: !InTwo(scans, name)
    ensures forall i, name :: 0 <= i < |scans| && name in scans[i] ==> name in index && index[name] == scans[i][name]
    ensures forall name :: name in index ==> exists i :: 0 <= i < |scans| && name in scans[i]
  {
    index := map[];
    for k := 0 to |scans|
      invariant forall i, name :: 0 <= i < k && name in scans[i] ==> name in index && index[name] == scans[i][name]
      invariant forall name :: name in index ==> exists i :: 0 <= i < k && name in scans[i]
    {
      assert forall i, name :: 0 <= i < k && name in scans[i] && name in scans[k] ==> InTwo(scans, name);
      index := index + scans[k];
    }
  }

  /// build_index on canonical roots: a name under two roots, or twice under one, is
  /// an error and never a silent choice; otherwise the index is the union.
  method BuildIndex(spelled: seq<Path>, disk: map<Path, RootFs>, platforms: seq<Name>)
    returns (roots: seq<Path>, r: Result<map<Name, Entry>, Failure>)
    requires RootsOk(spelled, disk)
    ensures NoRepeats(roots) && InFirstOrder(spelled, roots) && (forall root :: root in roots <==> root in spelled)
    ensures RootsOk(roots, disk)
    ensures r.Success? ==>
              var results := Results(roots, disk, platforms);
              Merged(results, r.value) && NoClash(results) && forall name :: !Contested(results, name)
    ensures r.Failure? ==>
              var results := Results(roots, disk, platforms);
              match r.error
              case WithinRoot(root) => exists k: nat :: FirstClash(results, k) && roots[k] == root
              case AcrossRoots(names) =>
                names != {} && NoClash(results) && forall name :: name in names <==> Contested(results, name)
  {
    roots := Deduped(spelled);
    ghost var results := Results(roots, disk, platforms);
    var scans := ScanAll(roots, disk, platforms);
    if scans.Failure? {
      return roots, Failure(WithinRoot(scans.error));
    }
    r := CheckAndMerge(results, scans.value);
  }

  /// The collision check over all roots, then the merge.
  method CheckAndMerge(ghost results: Scans, scans: seq<map<Name, Entry>>) returns (r: Result<map<Name, Entry>, Failure>)
    requires ScansAre(results, scans) && |scans| == |results|
    ensures NoClash(results)
    ensures r.Success? ==> Merged(results, r.value) && forall name :: !Contested(results, name)
    ensures r.Failure? ==>
              && r.error.AcrossRoots? && r.error.names != {}
              && forall name :: name in r.error.names <==> Contested(results, name)
  {
    var contested := FindContested(scans);
    AllContested(results, scans);
    if contested != {} {
      return Failure(AcrossRoots(contested));
    }
    var index := MergeScans(scans);
    MergedFromScans(results, scans, index);
    return Success(index);
  }

  ghost predicate InTwo(scans: seq<map<Name, Entry>>, name: Name) {
    exists i, j :: 0 <= i < j < |scans| && name in scans[i] && name in scans[j]
  }

  lemma AllContested(results: Scans, scans: seq<map<Name, Entry>>)
    requires ScansAre(results, scans) && |scans| == |results|
    ensures NoClash(results)
    ensures forall name :: Contested(results, name) <==> InTwo(scans, name)
  {
    forall name
      ensures Contested(results, name) <==> InTwo(scans, name)
    {
      if InTwo(scans, name) {
        var i, j :| 0 <= i < j < |scans| && name in scans[i] && name in scans[j];
        assert FoundAt(results, name, i) && FoundAt(results, name, j);
      }
    }
  }

  lemma MergedFromScans(results: Scans, scans: seq<map<Name, Entry>>, index: map<Name, Entry>)
    requires ScansAre(results, scans) && |scans| == |results|
    requires forall i, name :: 0 <= i < |scans| && name in scans[i] ==> name in index && index[name] == scans[i][name]
    requires forall name :: name in index ==> exists i :: 0 <= i < |scans| && name in scans[i]
    ensures Merged(results, index)
  {
    forall name | name in index
      ensures exists i: nat :: FoundAt(results, name, i)
    {
      var i :| 0 <= i < |scans| && name in scans[i];
      assert FoundAt(results, name, i);
    }
  }
}
