/**
 * Adsorption-site finder for a carbide slab: the top layer of atoms,
 * one ontop site per top atom, bridge sites over top-layer neighbour
 * pairs, hollow sites at the centre of accepted four-atom groups, and the
 * greedy tolerance de-duplication of hollow sites.
 *
 * The neighbour pairs come from an outside neighbour-list routine and are
 * an input here; the quadrilateral shape test on a four-atom group is a
 * parameter (it compares differences of norms).
 */
module Adsorption {
  import opened Wrappers
  import opened Geometry

  // ---------------------------------------------------------------------
  // Top layer
  // ---------------------------------------------------------------------

  /** The largest z over all atoms; an empty structure has none. */
  function MaxZ(ps: seq<Point>): (z: real)
    requires |ps| > 0
    ensures exists i :: 0 <= i < |ps| && ps[i].z == z
    ensures forall i :: 0 <= i < |ps| ==> ps[i].z <= z
  {
    if |ps| == 1 then ps[0].z
    else
      var m := MaxZ(ps[..|ps| - 1]);
      assert forall i :: 0 <= i < |ps| - 1 ==> ps[..|ps| - 1][i] == ps[i];
      if ps[|ps| - 1].z > m then ps[|ps| - 1].z else m
  }

  /** `np.max(z_coords)`: a `ValueError` on an empty structure. */
  function ZHighest(ps: seq<Point>): (r: Result<real>)
    ensures r.Ok? <==> |ps| > 0
    ensures r.Ok? ==> (exists i :: 0 <= i < |ps| && ps[i].z == r.value)
    ensures r.Ok? ==> forall i :: 0 <= i < |ps| ==> ps[i].z <= r.value
    ensures r.Err? ==> r.error == ValueError
  {
    if |ps| == 0 then Err(ValueError) else Ok(MaxZ(ps))
  }

  /** Within one length unit below the highest atom, bounds `(zHigh - 1, zHigh]`. */
  predicate InLayer(z: real, zHigh: real) {
    zHigh - 1.0 < z <= zHigh
  }

  /** Indices below `n` of atoms in the top layer, in index order. */
  function TopLayerBelow(ps: seq<Point>, zHigh: real, n: nat): seq<nat>
    requires n <= |ps|
  {
    if n == 0 then []
    else TopLayerBelow(ps, zHigh, n - 1) + (if InLayer(ps[n - 1].z, zHigh) then [n - 1] else [])
  }

  function TopLayer(ps: seq<Point>, zHigh: real): seq<nat> {
    TopLayerBelow(ps, zHigh, |ps|)
  }

  lemma {:induction false} TopLayerBelowMeaning(ps: seq<Point>, zHigh: real, n: nat)
    requires n <= |ps|
    ensures forall k :: 0 <= k < |TopLayerBelow(ps, zHigh, n)| ==>
      TopLayerBelow(ps, zHigh, n)[k] < n && InLayer(ps[TopLayerBelow(ps, zHigh, n)[k]].z, zHigh)
    ensures forall i :: 0 <= i < n && InLayer(ps[i].z, zHigh) ==> i in TopLayerBelow(ps, zHigh, n)
    ensures forall k, l :: 0 <= k < l < |TopLayerBelow(ps, zHigh, n)| ==>
      TopLayerBelow(ps, zHigh, n)[k] < TopLayerBelow(ps, zHigh, n)[l]
  {
    if n > 0 {
      TopLayerBelowMeaning(ps, zHigh, n - 1);
    }
  }

  /**
   * The top layer holds exactly the atoms whose height lies in
   * `(zHigh - 1, zHigh]`, each once, in index order.
   */
  lemma TopLayerMeaning(ps: seq<Point>, zHigh: real)
    ensures IndicesIn(TopLayer(ps, zHigh), |ps|)
    ensures forall i :: i in TopLayer(ps, zHigh) <==> 0 <= i < |ps| && InLayer(ps[i].z, zHigh)
    ensures forall k, l :: 0 <= k < l < |TopLayer(ps, zHigh)| ==> TopLayer(ps, zHigh)[k] < TopLayer(ps, zHigh)[l]
  {
    TopLayerBelowMeaning(ps, zHigh, |ps|);
  }

  /** With the true highest z, the top layer is never empty: the highest atom is in it. */
  lemma HighestInTop(ps: seq<Point>)
    requires |ps| > 0
    ensures exists i :: 0 <= i < |ps| && i in TopLayer(ps, MaxZ(ps)) && ps[i].z == MaxZ(ps)
    ensures |TopLayer(ps, MaxZ(ps))| > 0
  {
    var zHigh := MaxZ(ps);
    var i :| 0 <= i < |ps| && ps[i].z == zHigh;
    TopLayerMeaning(ps, zHigh);
    assert i in TopLayer(ps, zHigh);
  }

  // ---------------------------------------------------------------------
  // Ontop sites
  // ---------------------------------------------------------------------

  predicate IndicesIn(top: seq<nat>, n: nat) {
    forall k :: 0 <= k < |top| ==> top[k] < n
  }

  /** One site above each top-layer atom, `zSet` high. */
  function Ontop(ps: seq<Point>, top: seq<nat>, zSet: real): (sites: seq<Point>)
    requires IndicesIn(top, |ps|)
    ensures |sites| == |top|
  {
    seq(|top|, k requires 0 <= k < |top| => Point(ps[top[k]].x, ps[top[k]].y, zSet))
  }

  /** Position `k` of `top` is the only one holding atom `i`. */
  predicate OnlyAt(top: seq<nat>, i: nat, k: int) {
    0 <= k < |top| && top[k] == i && forall l :: 0 <= l < |top| && top[l] == i ==> l == k
  }

  /**
   * Every top-layer atom has exactly one ontop site, directly above it at
   * height `zSet`; every ontop site belongs to a top-layer atom.
   */
  lemma OntopOnePerAtom(ps: seq<Point>, zHigh: real, zSet: real, i: nat)
    requires i < |ps| && InLayer(ps[i].z, zHigh)
    ensures IndicesIn(TopLayer(ps, zHigh), |ps|)
    ensures exists k ::
      OnlyAt(TopLayer(ps, zHigh), i, k) && Ontop(ps, TopLayer(ps, zHigh), zSet)[k] == Point(ps[i].x, ps[i].y, zSet)
  {
    var top := TopLayer(ps, zHigh);
    TopLayerMeaning(ps, zHigh);
    var k :| 0 <= k < |top| && top[k] == i;
    assert OnlyAt(top, i, k);
  }

  /** Every ontop site stands above an atom of the layer. */
  lemma OntopAboveLayer(ps: seq<Point>, zHigh: real, zSet: real, k: nat)
    requires k < |TopLayer(ps, zHigh)|
    ensures IndicesIn(TopLayer(ps, zHigh), |ps|)
    ensures var i := TopLayer(ps, zHigh)[k];
      i < |ps| && InLayer(ps[i].z, zHigh) && Ontop(ps, TopLayer(ps, zHigh), zSet)[k] == Point(ps[i].x, ps[i].y, zSet)
  {
    TopLayerMeaning(ps, zHigh);
    assert TopLayer(ps, zHigh)[k] in TopLayer(ps, zHigh);
  }

  // ---------------------------------------------------------------------
  // Bridge sites
  // ---------------------------------------------------------------------

  /** A neighbour pair counts once, ordered, with both ends in the top layer. */
  predicate BridgePair(p: (nat, nat), top: seq<nat>) {
    p.0 in top && p.1 in top && p.0 < p.1
  }

  /** Collect the bridge pairs of the neighbour list into a set. */
  method BridgePairs(pairs: seq<(nat, nat)>, top: seq<nat>) returns (bp: set<(nat, nat)>)
    ensures forall p :: p in bp <==> p in pairs && BridgePair(p, top)
  {
    bp := {};
    var topSet := set i | i in top;
    for n := 0 to |pairs|
      invariant forall p :: p in bp <==> p in pairs[..n] && BridgePair(p, top)
    {
      var (i, j) := pairs[n];
      if i in topSet && j in topSet && i < j {
        bp := bp + {(i, j)};
      }
      assert forall p :: p in pairs[..n + 1] <==> p in pairs[..n] || p == pairs[n];
    }
    assert pairs[..|pairs|] == pairs;
  }

  /** A neighbour list that lists each pair both ways, as a full list does. */
  predicate Symmetric(pairs: seq<(nat, nat)>) {
    forall p :: p in pairs ==> (p.1, p.0) in pairs
  }

  /**
   * From a symmetric neighbour list, each unordered pair of neighbouring
   * top-layer atoms yields exactly one bridge: smaller index first.
   */
  lemma BridgeOncePerPair(pairs: seq<(nat, nat)>, top: seq<nat>, bp: set<(nat, nat)>, i: nat, j: nat)
    requires forall p :: p in bp <==> p in pairs && BridgePair(p, top)
    requires Symmetric(pairs)
    requires i in top && j in top && i < j
    ensures (i, j) in bp <==> (i, j) in pairs || (j, i) in pairs
    ensures (j, i) !in bp
  {
    if (j, i) in pairs {
      assert (i, j) in pairs;
    }
  }

  /** `((xi + xj) / 2, (yi + yj) / 2, zSet)`. */
  function Midpoint(p: Point, q: Point, zSet: real): (m: Point)
    ensures m.z == zSet
  {
    Point((p.x + q.x) / 2.0, (p.y + q.y) / 2.0, zSet)
  }

  function FlatSqDist(p: Point, q: Point): (d: real)
    ensures d >= 0.0
  {
    (p.x - q.x) * (p.x - q.x) + (p.y - q.y) * (p.y - q.y)
  }

  /** The bridge site lies horizontally half way between its two atoms. */
  lemma MidpointHalfway(p: Point, q: Point, zSet: real)
    ensures FlatSqDist(Midpoint(p, q, zSet), p) == FlatSqDist(Midpoint(p, q, zSet), q)
    ensures 4.0 * FlatSqDist(Midpoint(p, q, zSet), p) == FlatSqDist(p, q)
    ensures Midpoint(p, q, zSet) == Midpoint(q, p, zSet)
  {}

  predicate PairsIn(bp: set<(nat, nat)>, n: nat) {
    forall p :: p in bp ==> p.0 < n && p.1 < n
  }

  /** No pair is visited twice. */
  ghost predicate NoRepeats(order: seq<(nat, nat)>) {
    forall a, b :: 0 <= a < b < |order| ==> order[a] != order[b]
  }

  /** Site `k` is the midpoint of the `k`-th visited pair. */
  ghost predicate SitesFollow(ps: seq<Point>, zSet: real, sites: seq<Point>, order: seq<(nat, nat)>) {
    |sites| == |order| &&
    (forall k :: 0 <= k < |order| ==> order[k].0 < |ps| && order[k].1 < |ps|) &&
    (forall k :: 0 <= k < |sites| ==> sites[k] == Midpoint(ps[order[k].0], ps[order[k].1], zSet))
  }

  /**
   * A visit of every pair in order gives every pair's midpoint, and
   * nothing else.
   */
  lemma VisitCovers(ps: seq<Point>, bp: set<(nat, nat)>, zSet: real, sites: seq<Point>, order: seq<(nat, nat)>)
    requires forall p :: p in bp <==> p in order
    requires SitesFollow(ps, zSet, sites, order)
    ensures forall k :: 0 <= k < |sites| ==>
      exists p :: p in bp && sites[k] == Midpoint(ps[p.0], ps[p.1], zSet)
    ensures forall p :: p in bp ==> Midpoint(ps[p.0], ps[p.1], zSet) in sites
  {
    forall k | 0 <= k < |sites|
      ensures exists p :: p in bp && sites[k] == Midpoint(ps[p.0], ps[p.1], zSet)
    {
      var p := order[k];
      assert p in order;
      assert p in bp && sites[k] == Midpoint(ps[p.0], ps[p.1], zSet);
    }
    assert forall k :: 0 <= k < |sites| ==>
      exists p :: p in bp && sites[k] == Midpoint(ps[p.0], ps[p.1], zSet);
    forall p | p in bp
      ensures Midpoint(ps[p.0], ps[p.1], zSet) in sites
    {
      var k :| 0 <= k < |order| && order[k] == p;
      assert sites[k] == Midpoint(ps[p.0], ps[p.1], zSet);
    }
  }

  /**
   * One bridge site per bridge pair, the midpoint of that pair. The pairs
   * are a set, visited in an order the model leaves open; `order` is the
   * order of that visit: every pair exactly once, and site `k` belongs to
   * pair `order[k]`.
   */
  method BridgeSites(ps: seq<Point>, bp: set<(nat, nat)>, zSet: real) returns (sites: seq<Point>, ghost order: seq<(nat, nat)>)
    requires PairsIn(bp, |ps|)
    ensures |sites| == |order| == |bp|
    ensures forall p :: p in bp <==> p in order
    ensures NoRepeats(order)
    ensures forall k :: 0 <= k < |sites| ==> sites[k] == Midpoint(ps[order[k].0], ps[order[k].1], zSet)
    ensures forall k :: 0 <= k < |sites| ==>
      exists p :: p in bp && sites[k] == Midpoint(ps[p.0], ps[p.1], zSet)
    ensures forall p :: p in bp ==> Midpoint(ps[p.0], ps[p.1], zSet) in sites
  {
    sites, order := [], [];
    var rest := bp;
    while rest != {}
      invariant rest <= bp
      invariant |order| + |rest| == |bp|
      invariant forall p :: p in order <==> p in bp && p !in rest
      invariant NoRepeats(order)
      invariant SitesFollow(ps, zSet, sites, order)
      decreases |rest|
    {
      var p :| p in rest;
      sites := sites + [Midpoint(ps[p.0], ps[p.1], zSet)];
      order := order + [p];
      rest := rest - {p};
    }
    VisitCovers(ps, bp, zSet, sites, order);
  }

  // ---------------------------------------------------------------------
  // Hollow sites
  // ---------------------------------------------------------------------

  function Prepend<T>(x: T, cs: seq<seq<T>>): (r: seq<seq<T>>)
    ensures |r| == |cs|
    ensures forall i :: 0 <= i < |r| ==> r[i] == [x] + cs[i]
  {
    seq(|cs|, i requires 0 <= i < |cs| => [x] + cs[i])
  }

  /** `itertools.combinations(xs, k)`: every choice of `k` entries, in lexicographic index order. */
  function Combinations<T>(xs: seq<T>, k: nat): seq<seq<T>>
    decreases |xs|
  {
    if k == 0 then [[]]
    else if xs == [] then []
    else Prepend(xs[0], Combinations(xs[1..], k - 1)) + Combinations(xs[1..], k)
  }

  function Binomial(n: nat, k: nat): nat {
    if k == 0 then 1
    else if n == 0 then 0
    else Binomial(n - 1, k - 1) + Binomial(n - 1, k)
  }

  /** There are `C(n, k)` combinations. */
  lemma {:induction false} CombinationsCount<T>(xs: seq<T>, k: nat)
    ensures |Combinations(xs, k)| == Binomial(|xs|, k)
    decreases |xs|
  {
    if k != 0 && xs != [] {
      CombinationsCount(xs[1..], k - 1);
      CombinationsCount(xs[1..], k);
    }
  }

  /** Each combination holds `k` entries. */
  lemma {:induction false} CombinationsShape<T>(xs: seq<T>, k: nat)
    ensures forall i :: 0 <= i < |Combinations(xs, k)| ==> |Combinations(xs, k)[i]| == k
    decreases |xs|
  {
    if k != 0 && xs != [] {
      var tail := xs[1..];
      CombinationsShape(tail, k - 1);
      CombinationsShape(tail, k);
      var left := Prepend(xs[0], Combinations(tail, k - 1));
      var right := Combinations(tail, k);
      assert Combinations(xs, k) == left + right;
      assert forall i :: 0 <= i < |left| ==> |left[i]| == k;
    }
  }

  /** `max(dists) < 3.5 and min(dists) > 1.0` over the six pairs of a group, squared. */
  predicate Compact(c: seq<Point>) {
    |c| == 4 &&
    forall i, j :: 0 <= i < j < 4 ==> 1.0 < SqDist(c[i], c[j]) < 12.25
  }

  /** `np.mean(combo, axis=0)` with the height replaced by `zSet`. */
  function Centre(c: seq<Point>, zSet: real): (m: Point)
    requires |c| == 4
    ensures m.z == zSet
  {
    Point((c[0].x + c[1].x + c[2].x + c[3].x) / 4.0, (c[0].y + c[1].y + c[2].y + c[3].y) / 4.0, zSet)
  }

  /** The centre is the mean in the plane: the horizontal offsets of the four atoms cancel. */
  lemma CentreBalances(c: seq<Point>, zSet: real)
    requires |c| == 4
    ensures var m := Centre(c, zSet);
      (c[0].x - m.x) + (c[1].x - m.x) + (c[2].x - m.x) + (c[3].x - m.x) == 0.0
      && (c[0].y - m.y) + (c[1].y - m.y) + (c[2].y - m.y) + (c[3].y - m.y) == 0.0
  {}

  predicate Accepted(c: seq<Point>, shapeOk: seq<Point> -> bool) {
    Compact(c) && shapeOk(c)
  }

  /** The hollow sites of the given groups, in the order the groups come. */
  function HollowOf(cs: seq<seq<Point>>, zSet: real, shapeOk: seq<Point> -> bool): seq<Point> {
    if cs == [] then []
    else
      var last := cs[|cs| - 1];
      HollowOf(cs[..|cs| - 1], zSet, shapeOk) + (if Accepted(last, shapeOk) then [Centre(last, zSet)] else [])
  }

  /** Every hollow site is the centre of an accepted group, and every accepted group gives one. */
  lemma {:induction false} HollowOfMeaning(cs: seq<seq<Point>>, zSet: real, shapeOk: seq<Point> -> bool)
    ensures forall s :: s in HollowOf(cs, zSet, shapeOk) ==>
      exists c :: c in cs && Accepted(c, shapeOk) && s == Centre(c, zSet)
    ensures forall c :: c in cs && Accepted(c, shapeOk) ==> Centre(c, zSet) in HollowOf(cs, zSet, shapeOk)
    ensures |HollowOf(cs, zSet, shapeOk)| <= |cs|
  {
    if cs != [] {
      var init := cs[..|cs| - 1];
      HollowOfMeaning(init, zSet, shapeOk);
      assert forall c :: c in cs <==> c in init || c == cs[|cs| - 1];
    }
  }

  /** The loop over all four-atom groups of the top layer. */
  method HollowSites(top: seq<Point>, zSet: real, shapeOk: seq<Point> -> bool) returns (sites: seq<Point>)
    ensures sites == HollowOf(Combinations(top, 4), zSet, shapeOk)
  {
    var groups := Combinations(top, 4);
    sites := [];
    for n := 0 to |groups|
      invariant sites == HollowOf(groups[..n], zSet, shapeOk)
    {
      assert groups[..n + 1][..n] == groups[..n];
      if Compact(groups[n]) && shapeOk(groups[n]) {
        sites := sites + [Centre(groups[n], zSet)];
      }
    }
    assert groups[..|groups|] == groups;
  }

  // ---------------------------------------------------------------------
  // De-duplication
  // ---------------------------------------------------------------------

  /** `all(|s - u| > tol for u in unique)`. */
  predicate FarFromAll(s: Point, unique: seq<Point>, tol: real) {
    forall u :: u in unique ==> Apart(s, u, tol)
  }

  /** Greedy de-duplication: a site is kept when it is apart from every site kept before it. */
  function Dedup(sites: seq<Point>, tol: real): seq<Point> {
    if sites == [] then []
    else
      var kept := Dedup(sites[..|sites| - 1], tol);
      var s := sites[|sites| - 1];
      if FarFromAll(s, kept, tol) then kept + [s] else kept
  }

  method Deduplicate(sites: seq<Point>, tol: real) returns (unique: seq<Point>)
    ensures unique == Dedup(sites, tol)
  {
    unique := [];
    for n := 0 to |sites|
      invariant unique == Dedup(sites[..n], tol)
    {
      assert sites[..n + 1][..n] == sites[..n];
      var s := sites[n];
      var far := true;
      var m := 0;
      while m < |unique|
        invariant 0 <= m <= |unique|
        invariant far <==> forall k :: 0 <= k < m ==> Apart(s, unique[k], tol)
      {
        far := far && Apart(s, unique[m], tol);
        m := m + 1;
      }
      if far {
        unique := unique + [s];
      }
    }
    assert sites[..|sites|] == sites;
  }

  /** Indices into `sites` that are strictly increasing and in range. */
  predicate Increasing(idx: seq<nat>, n: nat) {
    (forall k :: 0 <= k < |idx| ==> idx[k] < n) &&
    (forall k, l :: 0 <= k < l < |idx| ==> idx[k] < idx[l])
  }

  /** `kept` is `sites` at the increasing positions `idx`. */
  predicate Picks(idx: seq<nat>, kept: seq<Point>, sites: seq<Point>) {
    |idx| == |kept| && Increasing(idx, |sites|) &&
    forall k :: 0 <= k < |idx| ==> kept[k] == sites[idx[k]]
  }

  /** Every position not picked lies within `tol` of a site picked from an earlier position. */
  predicate CoversDropped(idx: seq<nat>, kept: seq<Point>, sites: seq<Point>, tol: real)
    requires Picks(idx, kept, sites)
  {
    forall i :: 0 <= i < |sites| && i !in idx ==>
      exists k :: 0 <= k < |idx| && idx[k] < i && !Apart(sites[i], kept[k], tol)
  }

  lemma PicksExtend(idx: seq<nat>, kept: seq<Point>, sites: seq<Point>, s: Point, keep: bool)
    requires Picks(idx, kept, sites)
    ensures keep ==> Picks(idx + [|sites|], kept + [s], sites + [s])
    ensures !keep ==> Picks(idx, kept, sites + [s])
  {
    var all := sites + [s];
    assert forall i :: 0 <= i < |sites| ==> all[i] == sites[i];
  }

  /** Keeping the new site: positions dropped before stay covered. */
  lemma CoversExtendKeep(idx: seq<nat>, kept: seq<Point>, sites: seq<Point>, s: Point, tol: real)
    requires Picks(idx, kept, sites) && CoversDropped(idx, kept, sites, tol)
    ensures Picks(idx + [|sites|], kept + [s], sites + [s])
    ensures CoversDropped(idx + [|sites|], kept + [s], sites + [s], tol)
  {
    var all := sites + [s];
    var n := |sites|;
    PicksExtend(idx, kept, sites, s, true);
    var idx2 := idx + [n];
    var kept2 := kept + [s];
    forall i | 0 <= i < |all| && i !in idx2
      ensures exists k :: 0 <= k < |idx2| && idx2[k] < i && !Apart(all[i], kept2[k], tol)
    {
      assert i < n && i !in idx;
      assert all[i] == sites[i];
      var k :| 0 <= k < |idx| && idx[k] < i && !Apart(sites[i], kept[k], tol);
      assert idx2[k] == idx[k] && kept2[k] == kept[k];
    }
  }

  /** Dropping the new site, which lies near a kept one: it is covered too. */
  lemma CoversExtendDrop(idx: seq<nat>, kept: seq<Point>, sites: seq<Point>, s: Point, tol: real)
    requires Picks(idx, kept, sites) && CoversDropped(idx, kept, sites, tol)
    requires !FarFromAll(s, kept, tol)
    ensures Picks(idx, kept, sites + [s]) && CoversDropped(idx, kept, sites + [s], tol)
  {
    var all := sites + [s];
    var n := |sites|;
    PicksExtend(idx, kept, sites, s, false);
    var u :| u in kept && !Apart(s, u, tol);
    var k0 :| 0 <= k0 < |kept| && kept[k0] == u;
    assert idx[k0] < n;
    forall i | 0 <= i < |all| && i !in idx
      ensures exists k :: 0 <= k < |idx| && idx[k] < i && !Apart(all[i], kept[k], tol)
    {
      if i < n {
        assert all[i] == sites[i];
        var k :| 0 <= k < |idx| && idx[k] < i && !Apart(sites[i], kept[k], tol);
      } else {
        assert all[i] == s;
        assert idx[k0] < i && !Apart(all[i], kept[k0], tol);
      }
    }
  }

  /**
   * `Dedup` keeps a subsequence of its input, in the input's order, at the
   * positions `idx`; and every site it drops lies within `tol` of a site it
   * kept from an earlier position.
   */
  lemma {:induction false} DedupSubsequence(sites: seq<Point>, tol: real) returns (idx: seq<nat>)
    ensures Picks(idx, Dedup(sites, tol), sites)
    ensures CoversDropped(idx, Dedup(sites, tol), sites, tol)
  {
    if sites == [] {
      idx := [];
    } else {
      var n := |sites| - 1;
      var init := sites[..n];
      var kept := Dedup(init, tol);
      var prev := DedupSubsequence(init, tol);
      var s := sites[n];
      assert init + [s] == sites;
      if FarFromAll(s, kept, tol) {
        CoversExtendKeep(prev, kept, init, s, tol);
        idx := prev + [n];
      } else {
        CoversExtendDrop(prev, kept, init, s, tol);
        idx := prev;
      }
    }
  }

  /** The first site is always kept, in first place. */
  lemma {:induction false} DedupKeepsFirst(sites: seq<Point>, tol: real)
    requires |sites| > 0
    ensures |Dedup(sites, tol)| > 0 && Dedup(sites, tol)[0] == sites[0]
  {
    if |sites| > 1 {
      DedupKeepsFirst(sites[..|sites| - 1], tol);
    }
  }

  predicate PairwiseApart(us: seq<Point>, tol: real) {
    forall i, j :: 0 <= i < j < |us| ==> Apart(us[i], us[j], tol)
  }

  /** Any two kept sites are more than `tol` apart. */
  lemma {:induction false} DedupApart(sites: seq<Point>, tol: real)
    ensures PairwiseApart(Dedup(sites, tol), tol)
  {
    if sites != [] {
      var kept := Dedup(sites[..|sites| - 1], tol);
      DedupApart(sites[..|sites| - 1], tol);
      var s := sites[|sites| - 1];
      if FarFromAll(s, kept, tol) {
        var r := kept + [s];
        forall i, j | 0 <= i < j < |r|
          ensures Apart(r[i], r[j], tol)
        {
          if j == |kept| {
            assert r[i] in kept;
            ApartSymmetric(s, r[i], tol);
          }
        }
      }
    }
  }

  /** A list whose sites are already pairwise apart passes through unchanged. */
  lemma {:induction false} DedupOfApart(us: seq<Point>, tol: real)
    requires PairwiseApart(us, tol)
    ensures Dedup(us, tol) == us
  {
    if us != [] {
      var init := us[..|us| - 1];
      assert PairwiseApart(init, tol);
      DedupOfApart(init, tol);
      var s := us[|us| - 1];
      forall u | u in init
        ensures Apart(s, u, tol)
      {
        var i :| 0 <= i < |init| && init[i] == u;
        ApartSymmetric(u, s, tol);
      }
      assert init + [s] == us;
    }
  }

  /** De-duplicating the output again changes nothing. */
  lemma DedupIdempotent(sites: seq<Point>, tol: real)
    ensures Dedup(Dedup(sites, tol), tol) == Dedup(sites, tol)
  {
    DedupApart(sites, tol);
    DedupOfApart(Dedup(sites, tol), tol);
  }
}
