/// topo_sort: init entries grouped by tier, each tier ordered by requires/offers edges
/// with an (order, parse position) tie-break.  Orders are lists of parse positions.
module WireGraph {
  import opened Wrappers
  import opened Kahn

  datatype Tier = Early | PreHttp | Regular

  function Rank(tier: Tier): nat {
    match tier case Early => 0 case PreHttp => 1 case Regular => 2
  }

  datatype InitEntry = InitEntry(tier: Tier, fn: string, order: Option<int>, offers: seq<string>, needs: seq<string>)

  datatype Error = MissingProvider(entry: nat, key: string) | Cycle(tier: Tier, stuck: seq<nat>)

  // ------------------------------------------------------------------------
  // Specification
  // ------------------------------------------------------------------------

  /// `a` provides something `b` requires.
  ghost predicate Feeds(a: InitEntry, b: InitEntry) {
    exists key :: key in a.offers && key in b.needs
  }

  /// Nothing in the entry's own tier or an earlier one offers `key`.
  ghost predicate Unmet(entries: seq<InitEntry>, i: nat, key: string)
    requires i < |entries|
  {
    forall j :: 0 <= j < |entries| && key in entries[j].offers ==> Rank(entries[j].tier) > Rank(entries[i].tier)
  }

  ghost predicate TierMet(entries: seq<InitEntry>, tier: Tier) {
    forall i, key :: 0 <= i < |entries| && entries[i].tier == tier && key in entries[i].needs ==> !Unmet(entries, i, key)
  }

  predicate InTier(entries: seq<InitEntry>, tier: Tier, x: nat) {
    x < |entries| && entries[x].tier == tier
  }

  /// Parse positions of a tier's entries, ascending, among the first `n`.
  function Members(entries: seq<InitEntry>, tier: Tier, n: nat): (s: seq<nat>)
    requires n <= |entries|
    ensures forall x: nat :: x in s <==> x < n && InTier(entries, tier, x)
    ensures forall i, j :: 0 <= i < j < |s| ==> s[i] < s[j]
  {
    if n == 0 then []
    else
      var before := Members(entries, tier, n - 1);
      assert forall i :: 0 <= i < |before| ==> before[i] in before;
      if entries[n - 1].tier == tier then before + [n - 1] else before
  }

  ghost predicate Indexes(entries: seq<InitEntry>, idxs: seq<nat>) {
    && (forall i :: 0 <= i < |idxs| ==> idxs[i] < |entries|)
    && (forall i, j :: 0 <= i < j < |idxs| ==> idxs[i] < idxs[j])
  }

  /// Positions within the tier of the entries that feed position `pos`.
  ghost function Feeders(entries: seq<InitEntry>, idxs: seq<nat>, pos: nat): set<nat>
    requires Indexes(entries, idxs) && pos < |idxs|
  {
    set q: nat | q < |idxs| && q != pos && Feeds(entries[idxs[q]], entries[idxs[pos]])
  }

  lemma MembersIndex(entries: seq<InitEntry>, tier: Tier)
    ensures Indexes(entries, Members(entries, tier, |entries|))
  {
    var s := Members(entries, tier, |entries|);
    forall i | 0 <= i < |s| ensures s[i] < |entries| { assert s[i] in s; }
  }

  ghost function TierGraph(entries: seq<InitEntry>, tier: Tier): (g: Graph)
    ensures ValidGraph(g) && |g.deps| == |Members(entries, tier, |entries|)|
  {
    MembersIndex(entries, tier);
    var idxs := Members(entries, tier, |entries|);
    Graph(seq(|idxs|, pos requires 0 <= pos < |idxs| => Feeders(entries, idxs, pos)),
          seq(|idxs|, pos requires 0 <= pos < |idxs| => Key(entries[idxs[pos]].order, idxs[pos])))
  }

  function Image(idxs: seq<nat>, p: seq<nat>): (s: seq<nat>)
    requires Below(p, |idxs|)
    ensures |s| == |p| && forall i :: 0 <= i < |p| ==> s[i] == idxs[p[i]]
  {
    seq(|p|, i requires 0 <= i < |p| => idxs[p[i]])
  }

  /// `seg` lists a tier in the least topological order of its graph.
  ghost predicate IsTierOrder(entries: seq<InitEntry>, tier: Tier, seg: seq<nat>) {
    exists p :: IsTierOrderBy(entries, tier, seg, p)
  }

  ghost predicate IsTierOrderBy(entries: seq<InitEntry>, tier: Tier, seg: seq<nat>, p: seq<nat>) {
    var g, idxs := TierGraph(entries, tier), Members(entries, tier, |entries|);
    && Greedy(g, p) && Complete(g, p)
    && Below(p, |idxs|) && seg == Image(idxs, p)
  }

  /// The tiers' least orders, one after the other.
  ghost predicate IsSchedule(entries: seq<InitEntry>, order: seq<nat>) {
    exists a, b, c :: IsScheduleOf(entries, order, a, b, c)
  }

  ghost predicate IsScheduleOf(entries: seq<InitEntry>, order: seq<nat>, a: seq<nat>, b: seq<nat>, c: seq<nat>) {
    && IsTierOrder(entries, Early, a) && IsTierOrder(entries, PreHttp, b) && IsTierOrder(entries, Regular, c)
    && order == a + b + c
  }

  ghost predicate TierSolvable(entries: seq<InitEntry>, tier: Tier) {
    TierMet(entries, tier) && Acyclic(TierGraph(entries, tier))
  }

  ghost predicate Solvable(entries: seq<InitEntry>) {
    forall tier :: TierSolvable(entries, tier)
  }

  /// `u` feeds a different entry `v` of its own tier.
  ghost predicate FeedsInTier(entries: seq<InitEntry>, u: nat, v: nat) {
    && u < |entries| && v < |entries| && u != v
    && entries[u].tier == entries[v].tier
    && Feeds(entries[u], entries[v])
  }

  ghost predicate FeedersFirst(entries: seq<InitEntry>, order: seq<nat>) {
    forall i: nat, u: nat :: i < |order| && FeedsInTier(entries, u, order[i]) ==> u in order[..i]
  }

  /// The order lists exactly the tier, once.
  ghost predicate ListsTier(entries: seq<InitEntry>, tier: Tier, seg: seq<nat>) {
    NoDup(seg) && forall x: nat :: x in seg <==> InTier(entries, tier, x)
  }

  // ------------------------------------------------------------------------
  // What a schedule guarantees
  // ------------------------------------------------------------------------

  lemma TierOrderLists(entries: seq<InitEntry>, tier: Tier, seg: seq<nat>)
    requires IsTierOrder(entries, tier, seg)
    ensures ListsTier(entries, tier, seg)
  {
    var g, idxs := TierGraph(entries, tier), Members(entries, tier, |entries|);
    MembersIndex(entries, tier);
    var p :| IsTierOrderBy(entries, tier, seg, p);
    CompleteCoversAll(g, p);
    forall x: nat ensures x in seg <==> InTier(entries, tier, x) {
      ImageHasMember(idxs, p, x);
    }
    forall i, j | 0 <= i < j < |seg| ensures seg[i] != seg[j] {
      assert p[i] != p[j];
    }
  }

  lemma TierOrderFeedersFirst(entries: seq<InitEntry>, tier: Tier, seg: seq<nat>)
    requires IsTierOrder(entries, tier, seg)
    ensures FeedersFirst(entries, seg)
  {
    TierOrderLists(entries, tier, seg);
    var p :| IsTierOrderBy(entries, tier, seg, p);
    forall i: nat, u: nat | i < |seg| && FeedsInTier(entries, u, seg[i]) ensures u in seg[..i] {
      assert seg[i] in seg;
      FeederPlaced(entries, tier, seg, p, i, u);
    }
  }

  lemma FeederPlaced(entries: seq<InitEntry>, tier: Tier, seg: seq<nat>, p: seq<nat>, i: nat, u: nat)
    requires IsTierOrderBy(entries, tier, seg, p) && i < |seg| && FeedsInTier(entries, u, seg[i])
    requires InTier(entries, tier, seg[i])
    ensures u in seg[..i]
  {
    var g, idxs := TierGraph(entries, tier), Members(entries, tier, |entries|);
    MembersIndex(entries, tier);
    assert u in idxs;
    var q :| 0 <= q < |idxs| && idxs[q] == u;
    assert q in g.deps[p[i]];
    assert Available(g, Elems(p[..i]), p[i]);
    assert q in p[..i];
    var l :| 0 <= l < i && p[..i][l] == q;
    assert seg[..i][l] == u;
  }

  lemma ImageHasMember(idxs: seq<nat>, p: seq<nat>, x: nat)
    requires Below(p, |idxs|) && Elems(p) == Range(|idxs|)
    ensures x in Image(idxs, p) <==> x in idxs
  {
    var s := Image(idxs, p);
    if x in idxs {
      var q :| 0 <= q < |idxs| && idxs[q] == x;
      assert q in Elems(p);
      var i :| 0 <= i < |p| && p[i] == q;
      assert s[i] == x;
    }
  }

  lemma NoDupConcat(a: seq<nat>, b: seq<nat>)
    requires NoDup(a) && NoDup(b) && forall x :: x in a ==> x !in b
    ensures NoDup(a + b)
  {
    var s := a + b;
    forall i, j | 0 <= i < j < |s| ensures s[i] != s[j] {
      assert i < |a| ==> s[i] in a;
      assert j >= |a| ==> s[j] in b;
    }
  }

  lemma Segments(entries: seq<InitEntry>, order: seq<nat>) returns (a: seq<nat>, b: seq<nat>, c: seq<nat>)
    requires IsSchedule(entries, order)
    ensures order == a + b + c
    ensures ListsTier(entries, Early, a) && ListsTier(entries, PreHttp, b) && ListsTier(entries, Regular, c)
    ensures FeedersFirst(entries, a) && FeedersFirst(entries, b) && FeedersFirst(entries, c)
  {
    a, b, c :| IsScheduleOf(entries, order, a, b, c);
    TierOrderLists(entries, Early, a);
    TierOrderLists(entries, PreHttp, b);
    TierOrderLists(entries, Regular, c);
    TierOrderFeedersFirst(entries, Early, a);
    TierOrderFeedersFirst(entries, PreHttp, b);
    TierOrderFeedersFirst(entries, Regular, c);
  }

  /// Every entry is scheduled exactly once.
  lemma ScheduleIsPermutation(entries: seq<InitEntry>, order: seq<nat>)
    requires IsSchedule(entries, order)
    ensures NoDup(order) && Elems(order) == Range(|entries|) && |order| == |entries|
  {
    var a, b, c := Segments(entries, order);
    NoDupConcat(a, b);
    NoDupConcat(a + b, c);
    forall x: nat ensures x in order <==> x < |entries| {
      ListedIffEntry(entries, a, b, c, x);
    }
    CoversRange(order, |entries|);
  }

  lemma ListedIffEntry(entries: seq<InitEntry>, a: seq<nat>, b: seq<nat>, c: seq<nat>, x: nat)
    requires ListsTier(entries, Early, a) && ListsTier(entries, PreHttp, b) && ListsTier(entries, Regular, c)
    ensures x in a + b + c <==> x < |entries|
  {
    assert x in a + b + c <==> x in a || x in b || x in c;
    if x < |entries| { assert InTier(entries, entries[x].tier, x); }
  }

  lemma CoversRange(s: seq<nat>, n: nat)
    requires NoDup(s) && forall x: nat :: x in s <==> x < n
    ensures Elems(s) == Range(n) && |s| == n
  {
    NoDupSize(s);
    assert Elems(s) == Range(n);
  }

  /// Tiers never interleave.
  lemma ScheduleRespectsTiers(entries: seq<InitEntry>, order: seq<nat>, i: nat, j: nat)
    requires IsSchedule(entries, order) && i < j < |order|
    ensures order[i] < |entries| && order[j] < |entries|
    ensures Rank(entries[order[i]].tier) <= Rank(entries[order[j]].tier)
  {
    var a, b, c := Segments(entries, order);
    SegmentRank(entries, a, b, c, i);
    SegmentRank(entries, a, b, c, j);
  }

  lemma SegmentRank(entries: seq<InitEntry>, a: seq<nat>, b: seq<nat>, c: seq<nat>, i: nat)
    requires i < |a + b + c|
    requires ListsTier(entries, Early, a) && ListsTier(entries, PreHttp, b) && ListsTier(entries, Regular, c)
    ensures (a + b + c)[i] < |entries|
    ensures Rank(entries[(a + b + c)[i]].tier) == if i < |a| then 0 else if i < |a| + |b| then 1 else 2
  {
    var s := a + b + c;
    assert i < |a| ==> s[i] in a;
    assert |a| <= i < |a| + |b| ==> s[i] in b;
    assert |a| + |b| <= i ==> s[i] in c;
  }

  lemma FeedersFirstConcat(entries: seq<InitEntry>, s: seq<nat>, t: seq<nat>)
    requires FeedersFirst(entries, s) && FeedersFirst(entries, t)
    ensures FeedersFirst(entries, s + t)
  {
    forall i: nat, u: nat | i < |s + t| && FeedsInTier(entries, u, (s + t)[i]) ensures u in (s + t)[..i] {
      if i < |s| {
        assert u in s[..i] && (s + t)[..i] == s[..i];
      } else {
        assert u in t[..i - |s|] && (s + t)[..i] == s + t[..i - |s|];
      }
    }
  }

  /// Every entry of the same tier that provides something an entry requires is scheduled before it.
  lemma ScheduleFeedersFirst(entries: seq<InitEntry>, order: seq<nat>)
    requires IsSchedule(entries, order)
    ensures FeedersFirst(entries, order)
  {
    var a, b, c := Segments(entries, order);
    FeedersFirstConcat(entries, a, b);
    FeedersFirstConcat(entries, a + b, c);
  }

  /// Each required key is provided by the entry itself or by an entry scheduled before it.
  lemma ScheduleProvidesFirst(entries: seq<InitEntry>, order: seq<nat>, i: nat, key: string)
    requires IsSchedule(entries, order) && Solvable(entries) && i < |order|
    requires order[i] < |entries| && key in entries[order[i]].needs
    ensures key in entries[order[i]].offers ||
            exists j :: 0 <= j < i && order[j] < |entries| && key in entries[order[j]].offers
  {
    ScheduleIsPermutation(entries, order);
    var v := order[i];
    assert TierSolvable(entries, entries[v].tier);
    assert !Unmet(entries, v, key);
    var u :| 0 <= u < |entries| && key in entries[u].offers && Rank(entries[u].tier) <= Rank(entries[v].tier);
    if u != v {
      var k := PlacedEarlier(entries, order, i, u, key);
    }
  }

  lemma PlacedEarlier(entries: seq<InitEntry>, order: seq<nat>, i: nat, u: nat, key: string) returns (k: nat)
    requires IsSchedule(entries, order) && i < |order| && order[i] < |entries| && u < |entries| && u != order[i]
    requires key in entries[order[i]].needs && key in entries[u].offers
    requires Rank(entries[u].tier) <= Rank(entries[order[i]].tier)
    ensures k < i && order[k] == u
  {
    ScheduleIsPermutation(entries, order);
    if entries[u].tier == entries[order[i]].tier {
      ScheduleFeedersFirst(entries, order);
      assert FeedsInTier(entries, u, order[i]);
      k :| 0 <= k < i && order[..i][k] == u;
    } else {
      assert u in Elems(order);
      k :| 0 <= k < |order| && order[k] == u;
      LowerTierEarlier(entries, order, i, k);
    }
  }

  lemma LowerTierEarlier(entries: seq<InitEntry>, order: seq<nat>, i: nat, k: nat)
    requires IsSchedule(entries, order) && i < |order| && k < |order| && order[i] < |entries| && order[k] < |entries|
    requires Rank(entries[order[k]].tier) < Rank(entries[order[i]].tier)
    ensures k < i
  {
    if i < k {
      ScheduleRespectsTiers(entries, order, i, k);
    }
  }

  /// There is at most one schedule.
  lemma ScheduleIsUnique(entries: seq<InitEntry>, o: seq<nat>, r: seq<nat>)
    requires IsSchedule(entries, o) && IsSchedule(entries, r)
    ensures o == r
  {
    var a, b, c :| IsScheduleOf(entries, o, a, b, c);
    var a', b', c' :| IsScheduleOf(entries, r, a', b', c');
    TierOrderIsUnique(entries, Early, a, a');
    TierOrderIsUnique(entries, PreHttp, b, b');
    TierOrderIsUnique(entries, Regular, c, c');
  }

  lemma TierOrderIsUnique(entries: seq<InitEntry>, tier: Tier, s: seq<nat>, t: seq<nat>)
    requires IsTierOrder(entries, tier, s) && IsTierOrder(entries, tier, t)
    ensures s == t
  {
    var g := TierGraph(entries, tier);
    var p :| IsTierOrderBy(entries, tier, s, p);
    var q :| IsTierOrderBy(entries, tier, t, q);
    GreedyIsLeast(g, p, q);
    GreedyIsLeast(g, q, p);
    if p != q { LexBeforeIsAsymmetric(g, p, q); }
  }

  /// The positions of `r`'s entries within the tier.
  ghost function Positions(idxs: seq<nat>, r: seq<nat>): (p: seq<nat>)
    requires forall x :: x in r ==> x in idxs
    ensures |p| == |r| && Below(p, |idxs|) && Image(idxs, p) == r
  {
    if r == [] then []
    else
      assert r[|r| - 1] in r;
      var q :| 0 <= q < |idxs| && idxs[q] == r[|r| - 1];
      Positions(idxs, r[..|r| - 1]) + [q]
  }

  lemma RivalIsComplete(entries: seq<InitEntry>, tier: Tier, r: seq<nat>, p: seq<nat>)
    requires ListsTier(entries, tier, r) && FeedersFirst(entries, r)
    requires var idxs := Members(entries, tier, |entries|); Below(p, |idxs|) && Image(idxs, p) == r
    ensures Complete(TierGraph(entries, tier), p)
  {
    var g, idxs := TierGraph(entries, tier), Members(entries, tier, |entries|);
    forall i | 0 <= i < |p| ensures Available(g, Elems(p[..i]), p[i]) {
      RivalPickAvailable(entries, tier, r, p, i);
    }
    MembersIndex(entries, tier);
    SameSize(idxs, r);
  }

  lemma RivalPickAvailable(entries: seq<InitEntry>, tier: Tier, r: seq<nat>, p: seq<nat>, i: nat)
    requires ListsTier(entries, tier, r) && FeedersFirst(entries, r) && i < |p|
    requires var idxs := Members(entries, tier, |entries|); Below(p, |idxs|) && Image(idxs, p) == r
    ensures Available(TierGraph(entries, tier), Elems(p[..i]), p[i])
  {
    var g, idxs := TierGraph(entries, tier), Members(entries, tier, |entries|);
    MembersIndex(entries, tier);
    assert p[i] !in Elems(p[..i]) by {
      forall l | 0 <= l < i ensures p[l] != p[i] { assert r[l] != r[i]; }
    }
    forall q: nat | q in g.deps[p[i]] ensures q in Elems(p[..i]) {
      assert idxs[q] in idxs && r[i] in r;
      assert FeedsInTier(entries, idxs[q], r[i]);
      var l :| 0 <= l < i && r[..i][l] == idxs[q];
      assert p[l] == q && p[..i][l] == q;
    }
  }

  lemma SameSize(a: seq<nat>, b: seq<nat>)
    requires NoDup(b) && (forall i, j :: 0 <= i < j < |a| ==> a[i] != a[j])
    requires forall x: nat :: x in a <==> x in b
    ensures |a| == |b|
  {
    NoDupSize(a);
    NoDupSize(b);
    assert Elems(a) == Elems(b);
  }

  /// An entry with an order comes before one without, a smaller order before a larger one, and
  /// the parse position decides between equals.
  predicate Earlier(entries: seq<InitEntry>, u: nat, v: nat)
    requires u < |entries| && v < |entries|
  {
    var a, b := entries[u].order, entries[v].order;
    if a == b then u < v else a.Some? && (b.Some? ==> a.value < b.value)
  }

  lemma EarlierIsKeyLess(entries: seq<InitEntry>, u: nat, v: nat)
    requires u < |entries| && v < |entries|
    ensures Earlier(entries, u, v) <==> KeyLess(Key(entries[u].order, u), Key(entries[v].order, v))
  {}

  /// The orders agree up to position `k`, where `s` has the smaller (order or infinity, parse position).
  ghost predicate FirstAt(entries: seq<InitEntry>, s: seq<nat>, t: seq<nat>, k: nat) {
    && k < |s| && k < |t| && s[..k] == t[..k]
    && s[k] < |entries| && t[k] < |entries|
    && Earlier(entries, s[k], t[k])
  }

  lemma ImageKeepsOrder(entries: seq<InitEntry>, tier: Tier, p: seq<nat>, q: seq<nat>, k: nat)
    requires var n := |Members(entries, tier, |entries|)|; Below(p, n) && Below(q, n)
    requires LexBeforeAt(TierGraph(entries, tier), p, q, k)
    ensures var idxs := Members(entries, tier, |entries|); FirstAt(entries, Image(idxs, p), Image(idxs, q), k)
  {
    var idxs := Members(entries, tier, |entries|);
    MembersIndex(entries, tier);
    var s, t := Image(idxs, p), Image(idxs, q);
    forall l | 0 <= l < k ensures s[l] == t[l] { assert p[..k][l] == q[..k][l]; }
  }

  /// Among all orders of the tier that respect what feeds what, the tier's order is the first in
  /// the dictionary order.
  lemma TierOrderIsLeast(entries: seq<InitEntry>, tier: Tier, seg: seq<nat>, rival: seq<nat>)
    requires IsTierOrder(entries, tier, seg)
    requires ListsTier(entries, tier, rival) && FeedersFirst(entries, rival)
    ensures seg == rival || exists k: nat :: FirstAt(entries, seg, rival, k)
  {
    var g, idxs := TierGraph(entries, tier), Members(entries, tier, |entries|);
    var p :| IsTierOrderBy(entries, tier, seg, p);
    var q := Positions(idxs, rival);
    RivalIsComplete(entries, tier, rival, q);
    GreedyIsLeast(g, p, q);
    if p != q {
      var k: nat :| LexBeforeAt(g, p, q, k);
      ImageKeepsOrder(entries, tier, p, q, k);
    }
  }

  lemma UnconstrainedGraph(entries: seq<InitEntry>, tier: Tier)
    requires forall u: nat, v: nat :: InTier(entries, tier, u) ==> !FeedsInTier(entries, u, v)
    ensures var g := TierGraph(entries, tier); forall v :: 0 <= v < |g.deps| ==> g.deps[v] == {}
  {
    var g, idxs := TierGraph(entries, tier), Members(entries, tier, |entries|);
    MembersIndex(entries, tier);
    forall v | 0 <= v < |g.deps| ensures g.deps[v] == {} {
      assert idxs[v] in idxs;
      forall q: nat ensures q !in g.deps[v] {
        if q < |idxs| { assert idxs[q] in idxs && !FeedsInTier(entries, idxs[q], idxs[v]); }
      }
    }
  }

  /// A tier no entry of which feeds another lists entries with an order first, by order, and
  /// the rest and equals by parse position.
  lemma UnconstrainedTierIsSorted(entries: seq<InitEntry>, tier: Tier, seg: seq<nat>)
    requires IsTierOrder(entries, tier, seg)
    requires forall u: nat, v: nat :: InTier(entries, tier, u) ==> !FeedsInTier(entries, u, v)
    ensures forall i, j :: 0 <= i < j < |seg| ==>
              && seg[i] < |entries| && seg[j] < |entries|
              && Earlier(entries, seg[i], seg[j])
  {
    var g, idxs := TierGraph(entries, tier), Members(entries, tier, |entries|);
    MembersIndex(entries, tier);
    var p :| IsTierOrderBy(entries, tier, seg, p);
    UnconstrainedGraph(entries, tier);
    WithoutEdgesSorted(g, p);
    hide Earlier, KeyLess;
    forall i, j | 0 <= i < j < |seg|
      ensures seg[i] < |entries| && seg[j] < |entries| && Earlier(entries, seg[i], seg[j])
    {
      assert g.keys[p[i]] == Key(entries[seg[i]].order, seg[i]) && g.keys[p[j]] == Key(entries[seg[j]].order, seg[j]);
      EarlierIsKeyLess(entries, seg[i], seg[j]);
    }
  }

  // ------------------------------------------------------------------------
  // The algorithm
  // ------------------------------------------------------------------------

  ghost predicate EarliestTiers(entries: seq<InitEntry>, n: nat, m: map<string, nat>)
    requires n <= |entries|
  {
    && (forall i, key :: 0 <= i < n && key in entries[i].offers ==> key in m && m[key] <= Rank(entries[i].tier))
    && (forall key :: key in m ==> exists i :: 0 <= i < n && key in entries[i].offers && m[key] == Rank(entries[i].tier))
  }

  /// `m` is `before` with every key of `offers` lowered to at most `rank`.
  ghost predicate Lowered(before: map<string, nat>, offers: seq<string>, rank: nat, m: map<string, nat>) {
    && (forall key :: key in before || key in offers <==> key in m)
    && (forall key :: key in m ==>
          m[key] == if key !in offers then before[key]
                    else if key in before && before[key] <= rank then before[key] else rank)
  }

  method Lower(before: map<string, nat>, offers: seq<string>, rank: nat) returns (m: map<string, nat>)
    ensures Lowered(before, offers, rank, m)
  {
    m := before;
    for k := 0 to |offers|
      invariant Lowered(before, offers[..k], rank, m)
    {
      var key := offers[k];
      assert offers[..k + 1] == offers[..k] + [key];
      if key !in m || rank < m[key] {
        m := m[key := rank];
      }
    }
    assert offers[..|offers|] == offers;
  }

  /// Key -> earliest tier rank that provides it.
  method ProvidesTier(entries: seq<InitEntry>) returns (m: map<string, nat>)
    ensures EarliestTiers(entries, |entries|, m)
  {
    m := map[];
    for i := 0 to |entries|
      invariant EarliestTiers(entries, i, m)
    {
      ghost var before := m;
      m := Lower(m, entries[i].offers, Rank(entries[i].tier));
      EarliestTiersStep(entries, i, before, m);
    }
  }

  lemma EarliestTiersStep(entries: seq<InitEntry>, i: nat, before: map<string, nat>, m: map<string, nat>)
    requires i < |entries| && EarliestTiers(entries, i, before)
    requires Lowered(before, entries[i].offers, Rank(entries[i].tier), m)
    ensures EarliestTiers(entries, i + 1, m)
  {
    forall key | key in m
      ensures exists j :: 0 <= j < i + 1 && key in entries[j].offers && m[key] == Rank(entries[j].tier)
    {
      if key in before && m[key] == before[key] {
        var j :| 0 <= j < i && key in entries[j].offers && before[key] == Rank(entries[j].tier);
      }
    }
  }

  predicate Lists(m: map<string, seq<nat>>, key: string, q: nat) {
    key in m && q in m[key]
  }

  ghost predicate ProviderMap(entries: seq<InitEntry>, idxs: seq<nat>, n: nat, m: map<string, seq<nat>>)
    requires Indexes(entries, idxs) && n <= |idxs|
  {
    && (forall key, q: nat :: Lists(m, key, q) <==> (q < n && key in entries[idxs[q]].offers))
    && (forall key :: key in m ==> m[key] != [])
  }

  /// `m` is `before` with `pos` appended to the list of every key of `offers`.
  ghost predicate Extended(before: map<string, seq<nat>>, offers: seq<string>, pos: nat, m: map<string, seq<nat>>) {
    && (forall key, q: nat :: Lists(m, key, q) <==> Lists(before, key, q) || (q == pos && key in offers))
    && (forall key :: key in m ==> m[key] != [])
  }

  method Extend(before: map<string, seq<nat>>, offers: seq<string>, pos: nat) returns (m: map<string, seq<nat>>)
    requires forall key :: key in before ==> before[key] != []
    ensures Extended(before, offers, pos, m)
  {
    m := before;
    for k := 0 to |offers|
      invariant Extended(before, offers[..k], pos, m)
    {
      var key := offers[k];
      assert offers[..k + 1] == offers[..k] + [key];
      ghost var prior := m;
      m := m[key := (if key in m then m[key] else []) + [pos]];
      assert forall key', q: nat :: Lists(m, key', q) <==> Lists(prior, key', q) || (q == pos && key' == key);
    }
    assert offers[..|offers|] == offers;
  }

  /// Key -> positions within the tier that provide it.
  method ProviderOf(entries: seq<InitEntry>, idxs: seq<nat>) returns (m: map<string, seq<nat>>)
    requires Indexes(entries, idxs)
    ensures ProviderMap(entries, idxs, |idxs|, m)
  {
    m := map[];
    for pos := 0 to |idxs|
      invariant ProviderMap(entries, idxs, pos, m)
    {
      m := Extend(m, entries[idxs[pos]].offers, pos);
    }
  }

  /// Positions other than `pos` that offer one of `keys`.
  ghost predicate FeedBy(entries: seq<InitEntry>, idxs: seq<nat>, pos: nat, keys: seq<string>, deps: set<nat>)
    requires Indexes(entries, idxs)
  {
    forall q: nat :: q in deps <==> q < |idxs| && q != pos && exists key :: key in keys && key in entries[idxs[q]].offers
  }

  ghost predicate AllMet(entries: seq<InitEntry>, i: nat, keys: seq<string>)
    requires i < |entries|
  {
    forall key :: key in keys ==> !Unmet(entries, i, key)
  }

  lemma FeedByAll(entries: seq<InitEntry>, idxs: seq<nat>, pos: nat, deps: set<nat>)
    requires Indexes(entries, idxs) && pos < |idxs| && FeedBy(entries, idxs, pos, entries[idxs[pos]].needs, deps)
    ensures deps == Feeders(entries, idxs, pos)
  {
    forall q: nat ensures q in deps <==> q in Feeders(entries, idxs, pos) {
      if q < |idxs| {
        assert Feeds(entries[idxs[q]], entries[idxs[pos]]) <==>
               exists key :: key in entries[idxs[pos]].needs && key in entries[idxs[q]].offers;
      }
    }
  }

  lemma FeedByMore(entries: seq<InitEntry>, idxs: seq<nat>, pos: nat, keys: seq<string>, key: string, deps: set<nat>, others: set<nat>)
    requires Indexes(entries, idxs) && FeedBy(entries, idxs, pos, keys, deps)
    requires forall q: nat :: q in others <==> q < |idxs| && q != pos && key in entries[idxs[q]].offers
    ensures FeedBy(entries, idxs, pos, keys + [key], deps + others)
  {
    forall q: nat | q in deps + others
      ensures q < |idxs| && q != pos && exists k :: k in keys + [key] && k in entries[idxs[q]].offers
    {
      if q in deps {
        var k :| k in keys && k in entries[idxs[q]].offers;
        assert k in keys + [key];
      } else {
        assert key in keys + [key];
      }
    }
  }

  /// A key offered within the tier is met; a key offered by no tier member is met exactly if an earlier tier offers it.
  lemma MetByTier(entries: seq<InitEntry>, tier: Tier, idxs: seq<nat>, i: nat, key: string, providesTier: map<string, nat>)
    requires Indexes(entries, idxs) && idxs == Members(entries, tier, |entries|) && InTier(entries, tier, i)
    requires EarliestTiers(entries, |entries|, providesTier)
    ensures (exists q :: 0 <= q < |idxs| && key in entries[idxs[q]].offers) ==> !Unmet(entries, i, key)
    ensures !(exists q :: 0 <= q < |idxs| && key in entries[idxs[q]].offers) ==>
            (Unmet(entries, i, key) <==> key !in providesTier || providesTier[key] > Rank(tier))
  {
    if q :| 0 <= q < |idxs| && key in entries[idxs[q]].offers {
      assert idxs[q] in idxs;
    } else if key in providesTier && providesTier[key] <= Rank(tier) {
      var j :| 0 <= j < |entries| && key in entries[j].offers && providesTier[key] == Rank(entries[j].tier);
    }
  }

  /// The edges into one position, or the first of its keys that nothing provides in time.
  method EdgesInto(entries: seq<InitEntry>, tier: Tier, idxs: seq<nat>, pos: nat,
                   providerOf: map<string, seq<nat>>, providesTier: map<string, nat>)
    returns (r: Result<set<nat>, string>)
    requires Indexes(entries, idxs) && pos < |idxs| && InTier(entries, tier, idxs[pos])
    requires idxs == Members(entries, tier, |entries|)
    requires ProviderMap(entries, idxs, |idxs|, providerOf)
    requires EarliestTiers(entries, |entries|, providesTier)
    ensures r.Success? ==> r.value == Feeders(entries, idxs, pos) && AllMet(entries, idxs[pos], entries[idxs[pos]].needs)
    ensures r.Failure? ==> r.error in entries[idxs[pos]].needs && Unmet(entries, idxs[pos], r.error)
  {
    var needs := entries[idxs[pos]].needs;
    var deps: set<nat> := {};
    for k := 0 to |needs|
      invariant FeedBy(entries, idxs, pos, needs[..k], deps)
      invariant AllMet(entries, idxs[pos], needs[..k])
    {
      var key := needs[k];
      MetByTier(entries, tier, idxs, idxs[pos], key, providesTier);
      assert needs[..k + 1] == needs[..k] + [key];
      var others: set<nat> := {};
      if key in providerOf {
        others := SetOf(providerOf[key], pos);
        assert Lists(providerOf, key, providerOf[key][0]);
        assert forall q: nat :: q in others <==> Lists(providerOf, key, q) && q != pos;
      } else {
        assert forall q: nat :: !Lists(providerOf, key, q);
        if key !in providesTier || providesTier[key] > Rank(tier) {
          return Failure(key);
        }
      }
      FeedByMore(entries, idxs, pos, needs[..k], key, deps, others);
      deps := deps + others;
    }
    assert needs[..|needs|] == needs;
    FeedByAll(entries, idxs, pos, deps);
    return Success(deps);
  }

  method SetOf(s: seq<nat>, except: nat) returns (r: set<nat>)
    ensures forall q: nat :: q in r <==> q in s && q != except
  {
    r := {};
    for i := 0 to |s|
      invariant forall q: nat :: q in r <==> q in s[..i] && q != except
    {
      if s[i] != except {
        r := r + {s[i]};
      }
    }
    assert s[..|s|] == s;
  }

  lemma AllMembersMet(entries: seq<InitEntry>, tier: Tier, idxs: seq<nat>)
    requires idxs == Members(entries, tier, |entries|) && Indexes(entries, idxs)
    requires forall q :: 0 <= q < |idxs| ==> AllMet(entries, idxs[q], entries[idxs[q]].needs)
    ensures TierMet(entries, tier)
  {
    forall i, key | 0 <= i < |entries| && entries[i].tier == tier && key in entries[i].needs ensures !Unmet(entries, i, key) {
      assert InTier(entries, tier, i) && i in idxs;
      var q :| 0 <= q < |idxs| && idxs[q] == i;
    }
  }

  /// One tier: its edges, then its least topological order, or the reason there is none.
  method SortTier(entries: seq<InitEntry>, tier: Tier, providesTier: map<string, nat>) returns (r: Result<seq<nat>, Error>)
    requires EarliestTiers(entries, |entries|, providesTier)
    ensures r.Success? <==> TierSolvable(entries, tier)
    ensures r.Success? ==> IsTierOrder(entries, tier, r.value)
    ensures r.Failure? ==> Explains(entries, tier, r.error)
  {
    var idxs := Members(entries, tier, |entries|);
    MembersIndex(entries, tier);
    var providerOf := ProviderOf(entries, idxs);
    var deps: seq<set<nat>> := [];
    for pos := 0 to |idxs|
      invariant |deps| == pos && forall q :: 0 <= q < pos ==> deps[q] == Feeders(entries, idxs, q)
      invariant forall q :: 0 <= q < pos ==> AllMet(entries, idxs[q], entries[idxs[q]].needs)
    {
      assert idxs[pos] in idxs;
      var edges := EdgesInto(entries, tier, idxs, pos, providerOf, providesTier);
      if edges.Failure? {
        return Failure(MissingProvider(idxs[pos], edges.error));
      }
      deps := deps + [edges.value];
    }
    AllMembersMet(entries, tier, idxs);
    var keys := seq(|idxs|, pos requires 0 <= pos < |idxs| => Key(entries[idxs[pos]].order, idxs[pos]));
    var g := Graph(deps, keys);
    assert g == TierGraph(entries, tier);
    var p := Kahn.Sort(g);
    GreedyIsTopological(g, p);
    TopologicalNoDup(g, p);
    CompleteIffAcyclic(g, p);
    assert Below(p, |idxs|) by {
      forall i | 0 <= i < |p| ensures p[i] < |idxs| { assert p[i] in Elems(p); }
    }
    if |p| != |idxs| {
      var left := Unplaced(|idxs|, p);
      StuckExplains(entries, tier, p, left);
      return Failure(Cycle(tier, Image(idxs, left)));
    }
    assert IsTierOrderBy(entries, tier, Image(idxs, p), p);
    return Success(Image(idxs, p));
  }

  /// Positions below `n` that the order left out, ascending.
  method Unplaced(n: nat, p: seq<nat>) returns (left: seq<nat>)
    ensures forall x: nat :: x in left <==> x < n && x !in p
    ensures Below(left, n)
  {
    left := [];
    for x := 0 to n
      invariant forall y: nat :: y in left <==> y < x && y !in p
      invariant Below(left, n)
    {
      if x !in p {
        left := left + [x];
      }
    }
  }

  /// An error tells the truth: the named key is unmet, or the named entries are not empty,
  /// belong to the tier, each is fed by another of them, and the tier's graph has a cycle.
  ghost predicate Explains(entries: seq<InitEntry>, tier: Tier, error: Error) {
    match error
    case MissingProvider(i, key) =>
      i < |entries| && entries[i].tier == tier && key in entries[i].needs && Unmet(entries, i, key)
    case Cycle(t, stuck) =>
      && t == tier && stuck != [] && TierMet(entries, tier) && !Acyclic(TierGraph(entries, tier))
      && forall x :: x in stuck ==> InTier(entries, tier, x) && exists y :: y in stuck && FeedsInTier(entries, y, x)
  }

  lemma StuckExplains(entries: seq<InitEntry>, tier: Tier, p: seq<nat>, left: seq<nat>)
    requires TierMet(entries, tier) && !Acyclic(TierGraph(entries, tier))
    requires Topological(TierGraph(entries, tier), p) && Stuck(TierGraph(entries, tier), Elems(p))
    requires var n := |Members(entries, tier, |entries|)|;
             |p| < n && Below(left, n) && forall x: nat :: x in left <==> x < n && x !in p
    ensures Explains(entries, tier, Cycle(tier, Image(Members(entries, tier, |entries|), left)))
  {
    var g, idxs := TierGraph(entries, tier), Members(entries, tier, |entries|);
    MembersIndex(entries, tier);
    var stuck := Image(idxs, left);
    TopologicalNoDup(g, p);
    NoDupSize(p);
    if left == [] {
      assert Range(|idxs|) <= Elems(p) by {
        forall x: nat | x < |idxs| ensures x in Elems(p) { assert x !in left; }
      }
      SubsetSize(Range(|idxs|), Elems(p));
      assert false;
    }
    forall x | x in stuck
      ensures InTier(entries, tier, x) && exists y :: y in stuck && FeedsInTier(entries, y, x)
    {
      var k :| 0 <= k < |left| && stuck[k] == x;
      var v := left[k];
      assert v in left && idxs[v] in idxs;
      assert !Available(g, Elems(p), v);
      var u :| u in g.deps[v] && u !in Elems(p);
      assert u in left;
      var l :| 0 <= l < |left| && left[l] == u;
      assert idxs[u] in idxs;
      assert stuck[l] == idxs[u] && stuck[l] in stuck && FeedsInTier(entries, stuck[l], x);
    }
  }

  function TierOf(entries: seq<InitEntry>, error: Error): Tier
    requires error.MissingProvider? ==> error.entry < |entries|
  {
    match error case MissingProvider(i, _) => entries[i].tier case Cycle(tier, _) => tier
  }

  /// topo_sort.  It succeeds exactly when every required key is met in time and every tier is
  /// acyclic, and then returns the schedule; otherwise it reports the first tier in trouble.
  method TopoSort(entries: seq<InitEntry>) returns (r: Result<seq<nat>, Error>)
    ensures r.Success? <==> Solvable(entries)
    ensures r.Success? ==> IsSchedule(entries, r.value)
    ensures r.Failure? ==>
              && (r.error.MissingProvider? ==> r.error.entry < |entries|)
              && Explains(entries, TierOf(entries, r.error), r.error)
              && forall tier :: Rank(tier) < Rank(TierOf(entries, r.error)) ==> TierSolvable(entries, tier)
  {
    var providesTier := ProvidesTier(entries);
    var early := SortTier(entries, Early, providesTier);
    if early.Failure? {
      return Failure(early.error);
    }
    var preHttp := SortTier(entries, PreHttp, providesTier);
    if preHttp.Failure? {
      return Failure(preHttp.error);
    }
    var regular := SortTier(entries, Regular, providesTier);
    if regular.Failure? {
      return Failure(regular.error);
    }
    var order := early.value + preHttp.value + regular.value;
    assert IsScheduleOf(entries, order, early.value, preHttp.value, regular.value);
    return Success(order);
  }
}
