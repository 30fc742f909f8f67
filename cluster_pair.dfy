/**
 * Pair-cluster detection in LAMMPS dump frames: the `--types` and `--cutoffs`
 * options, the adjacency sets of atoms bonded by a cutoff rule, the
 * connected components found by breadth-first search and the per-frame
 * cluster counts and size histogram.
 */
module ClusterPair {
  import opened Wrappers
  import opened Text
  import opened Geometry

  // ---------------------------------------------------------------------
  // Option parsing
  // ---------------------------------------------------------------------

  /** One `--types` item "ID:SYMBOL", as (symbol, id). */
  function ParseTypeItem(item: string): Result<(string, int)> {
    var fs := SplitOn(item, ':');
    if |fs| != 2 then Err(ValueError)
    else match ParseInt(fs[0])
      case None => Err(ValueError)
      case Some(id) => Ok((fs[1], id))
  }

  /** The symbol table built from the items in order; a later item overwrites an earlier one. */
  function TypesOf(items: seq<string>): Result<map<string, int>> {
    if items == [] then Ok(map[])
    else
      match TypesOf(items[..|items| - 1])
      case Err(e) => Err(e)
      case Ok(m) =>
        match ParseTypeItem(items[|items| - 1])
        case Err(e) => Err(e)
        case Ok(p) => Ok(m[p.0 := p.1])
  }

  predicate Names(item: string, sym: string, id: int) {
    ParseTypeItem(item) == Ok((sym, id))
  }

  /** An item written as `id:sym` reads back as that pair. */
  lemma TypeItemRoundTrip(id: nat, sym: string)
    requires ':' !in sym
    ensures ParseTypeItem(NatToString(id) + [':'] + sym) == Ok((sym, id))
  {
    var s := NatToString(id);
    assert ':' !in s;
    SplitOnJoin([s, sym], ':');
    assert Join([s, sym], ':') == s + [':'] + sym;
    ParseIntNatToString(id);
  }

  lemma {:induction false} TypesOfErr(items: seq<string>, k: nat, e: Error)
    requires k <= |items| && TypesOf(items[..k]) == Err(e)
    ensures TypesOf(items) == Err(e)
    decreases |items| - k
  {
    if k < |items| {
      assert items[..k + 1][..k] == items[..k];
      TypesOfErr(items, k + 1, e);
    } else {
      assert items[..k] == items;
    }
  }

  /** `parse_types` succeeds iff every item is "ID:SYMBOL" with an integer ID. */
  lemma {:induction false} TypesOfOk(items: seq<string>)
    ensures TypesOf(items).Ok? <==> forall i :: 0 <= i < |items| ==> ParseTypeItem(items[i]).Ok?
  {
    if items != [] {
      var n := |items| - 1;
      TypesOfOk(items[..n]);
      assert forall i :: 0 <= i < n ==> items[..n][i] == items[i];
    }
  }

  /** The table then holds exactly the symbols the items name. */
  lemma {:induction false} TypesOfKeys(items: seq<string>)
    requires TypesOf(items).Ok?
    ensures forall s :: s in TypesOf(items).value <==> exists i, id :: 0 <= i < |items| && Names(items[i], s, id)
  {
    if items != [] {
      var n := |items| - 1;
      var front := items[..n];
      TypesOfKeys(front);
      var m := TypesOf(items).value;
      var p := ParseTypeItem(items[n]).value;
      assert Names(items[n], p.0, p.1);
      forall s | s in m ensures exists i, id :: 0 <= i < |items| && Names(items[i], s, id) {
        if s != p.0 {
          var i, id :| 0 <= i < n && Names(front[i], s, id);
          assert Names(items[i], s, id);
        }
      }
      forall s | (exists i, id :: 0 <= i < |items| && Names(items[i], s, id)) ensures s in m {
        var i, id :| 0 <= i < |items| && Names(items[i], s, id);
        if i < n {
          assert Names(front[i], s, id);
        }
      }
    }
  }

  /** Each symbol gets the ID of the last item naming it. */
  lemma {:induction false} TypesOfLast(items: seq<string>, i: nat, s: string, id: int)
    requires TypesOf(items).Ok?
    requires i < |items| && Names(items[i], s, id)
    requires forall j, id' :: i < j < |items| ==> !Names(items[j], s, id')
    ensures s in TypesOf(items).value && TypesOf(items).value[s] == id
  {
    var n := |items| - 1;
    var p := ParseTypeItem(items[n]).value;
    assert Names(items[n], p.0, p.1);
    if i < n {
      var front := items[..n];
      assert !Names(items[n], s, p.1);
      assert Names(front[i], s, id);
      forall j, id' | i < j < n ensures !Names(front[j], s, id') {
        assert front[j] == items[j];
      }
      TypesOfLast(front, i, s, id);
    }
  }

  /** `parse_types(txt)` */
  method ParseTypes(txt: string) returns (r: Result<map<string, int>>)
    ensures r == TypesOf(SplitOn(txt, ','))
  {
    var items := SplitOn(txt, ',');
    var m: map<string, int> := map[];
    for i := 0 to |items|
      invariant TypesOf(items[..i]) == Ok(m)
    {
      assert items[..i + 1][..i] == items[..i];
      match ParseTypeItem(items[i]) {
        case Err(e) =>
          TypesOfErr(items, i + 1, e);
          return Err(e);
        case Ok(p) =>
          m := m[p.0 := p.1];
      }
    }
    assert items[..|items|] == items;
    return Ok(m);
  }

  /** A `--cutoffs` rule "A-B:d". */
  datatype Rule = Rule(symA: string, symB: string, cutoff: real)

  function ParseRule(item: string, toReal: RealParser): Result<Rule> {
    var fs := SplitOn(item, ':');
    if |fs| != 2 then Err(ValueError)
    else
      var ab := SplitOn(fs[0], '-');
      if |ab| != 2 then Err(ValueError)
      else match toReal(fs[1])
        case None => Err(ValueError)
        case Some(d) => Ok(Rule(ab[0], ab[1], d))
  }

  /** The rules of the items in order, or the error of the first bad item. */
  function CutoffsOf(items: seq<string>, toReal: RealParser): Result<seq<Rule>> {
    MapAll(items, item => ParseRule(item, toReal))
  }

  /** A rule written as "A-B:d" reads back as that rule. */
  lemma RuleRoundTrip(a: string, b: string, d: string, toReal: RealParser, x: real)
    requires '-' !in a && '-' !in b && ':' !in a && ':' !in b && ':' !in d
    requires toReal(d) == Some(x)
    ensures ParseRule(a + ['-'] + b + [':'] + d, toReal) == Ok(Rule(a, b, x))
  {
    var pair := a + ['-'] + b;
    assert ':' !in pair;
    SplitOnJoin([pair, d], ':');
    assert Join([pair, d], ':') == pair + [':'] + d;
    SplitOnJoin([a, b], '-');
    assert Join([a, b], '-') == pair;
  }

  /** `parse_cutoffs(txt)` */
  method ParseCutoffs(txt: string, toReal: RealParser) returns (r: Result<seq<Rule>>)
    ensures r == CutoffsOf(SplitOn(txt, ','), toReal)
  {
    var items := SplitOn(txt, ',');
    var out: seq<Rule> := [];
    for i := 0 to |items|
      invariant CutoffsOf(items[..i], toReal) == Ok(out)
    {
      assert items[..i + 1][..i] == items[..i];
      var rule := ParseRule(items[i], toReal);
      if rule.Err? {
        MapAllErr(items, item => ParseRule(item, toReal), i + 1, rule.error);
        return Err(rule.error);
      }
      out := out + [rule.value];
    }
    assert items[..|items|] == items;
    return Ok(out);
  }

  // ---------------------------------------------------------------------
  // Adjacency
  // ---------------------------------------------------------------------

  /** One dump frame: the timestep, and a type id and position per atom. */
  datatype Frame = Frame(step: int, types: seq<int>, coords: seq<Point>)

  predicate WellFormed(f: Frame) { |f.types| == |f.coords| }

  /** Every neighbour index names an atom. */
  predicate Bounded(adj: seq<set<nat>>) {
    forall u, v :: 0 <= u < |adj| && v in adj[u] ==> v < |adj|
  }

  predicate Symmetric(adj: seq<set<nat>>) {
    forall u, v :: 0 <= u < |adj| && 0 <= v < |adj| ==> (v in adj[u] <==> u in adj[v])
  }

  predicate Known(r: Rule, sym2id: map<string, int>) {
    r.symA in sym2id && r.symB in sym2id
  }

  /** Atoms `u` and `v` are distinct, of the two species of rule `r`, and no farther apart than its cutoff. */
  predicate Bonded(f: Frame, r: Rule, sym2id: map<string, int>, u: nat, v: nat)
    requires WellFormed(f) && Known(r, sym2id) && u < |f.types| && v < |f.types|
  {
    var idA := sym2id[r.symA];
    var idB := sym2id[r.symB];
    u != v && Within(f.coords[u], f.coords[v], r.cutoff) &&
    ((f.types[u] == idA && f.types[v] == idB) || (f.types[u] == idB && f.types[v] == idA))
  }

  predicate AllKnown(rules: seq<Rule>, sym2id: map<string, int>) {
    forall i :: 0 <= i < |rules| ==> Known(rules[i], sym2id)
  }

  /** Some rule of `rules` bonds `u` and `v`. */
  predicate Linked(f: Frame, rules: seq<Rule>, sym2id: map<string, int>, u: nat, v: nat)
    requires WellFormed(f) && AllKnown(rules, sym2id) && u < |f.types| && v < |f.types|
  {
    rules != [] &&
    (Linked(f, rules[..|rules| - 1], sym2id, u, v) || Bonded(f, rules[|rules| - 1], sym2id, u, v))
  }

  /**
   * What `build_adjacency` returns: a KeyError when a rule names a symbol
   * missing from the table, otherwise for each atom the set of atoms some
   * rule bonds it to.
   */
  function AdjacencyOf(f: Frame, rules: seq<Rule>, sym2id: map<string, int>): Result<seq<set<nat>>>
    requires WellFormed(f)
  {
    if !AllKnown(rules, sym2id) then Err(KeyError)
    else Ok(seq(|f.types|, u requires 0 <= u < |f.types| =>
      set v: nat | v < |f.types| && Linked(f, rules, sym2id, u, v)))
  }

  lemma AdjacencyEntry(f: Frame, rules: seq<Rule>, sym2id: map<string, int>, u: nat)
    requires WellFormed(f) && AllKnown(rules, sym2id) && u < |f.types|
    ensures |AdjacencyOf(f, rules, sym2id).value| == |f.types|
    ensures forall v: nat :: v in AdjacencyOf(f, rules, sym2id).value[u] <==> v < |f.types| && Linked(f, rules, sym2id, u, v)
  {
  }

  lemma {:induction false} LinkedMeaning(f: Frame, rules: seq<Rule>, sym2id: map<string, int>, u: nat, v: nat)
    requires WellFormed(f) && AllKnown(rules, sym2id) && u < |f.types| && v < |f.types|
    ensures Linked(f, rules, sym2id, u, v) <==> exists i :: 0 <= i < |rules| && Bonded(f, rules[i], sym2id, u, v)
  {
    if rules != [] {
      var n := |rules| - 1;
      assert AllKnown(rules[..n], sym2id);
      LinkedMeaning(f, rules[..n], sym2id, u, v);
      if exists i :: 0 <= i < |rules| && Bonded(f, rules[i], sym2id, u, v) {
        var i :| 0 <= i < |rules| && Bonded(f, rules[i], sym2id, u, v);
        if i < n { assert rules[..n][i] == rules[i]; }
      }
    }
  }

  /**
   * The adjacency has an entry for every atom; `v` is a neighbour of `u` iff
   * some rule names their two species and they lie within its cutoff; the
   * relation is symmetric and no atom neighbours itself. It fails with
   * KeyError iff some rule names an unmapped symbol.
   */
  lemma AdjacencyShape(f: Frame, rules: seq<Rule>, sym2id: map<string, int>)
    requires WellFormed(f)
    ensures AdjacencyOf(f, rules, sym2id).Err? <==>
      exists i :: 0 <= i < |rules| && (rules[i].symA !in sym2id || rules[i].symB !in sym2id)
    ensures AdjacencyOf(f, rules, sym2id).Err? ==> AdjacencyOf(f, rules, sym2id).error == KeyError
    ensures AdjacencyOf(f, rules, sym2id).Ok? ==>
      var adj := AdjacencyOf(f, rules, sym2id).value;
      && |adj| == |f.types|
      && Bounded(adj)
      && Symmetric(adj)
      && (forall u :: 0 <= u < |adj| ==> u !in adj[u])
      && forall u: nat, v: nat :: u < |adj| && v < |adj| ==>
           (v in adj[u] <==> exists i :: 0 <= i < |rules| && Bonded(f, rules[i], sym2id, u, v))
  {
    if AdjacencyOf(f, rules, sym2id).Ok? {
      var adj := AdjacencyOf(f, rules, sym2id).value;
      forall u: nat, v: nat | u < |adj| && v < |adj|
        ensures v in adj[u] <==> exists i :: 0 <= i < |rules| && Bonded(f, rules[i], sym2id, u, v)
      {
        AdjacencyPair(f, rules, sym2id, u, v);
      }
      forall u: nat, v: nat | u < |adj| && v < |adj|
        ensures v in adj[u] <==> u in adj[v]
      {
        AdjacencyPair(f, rules, sym2id, u, v);
      }
      forall u | 0 <= u < |adj| ensures u !in adj[u] {
        AdjacencyPair(f, rules, sym2id, u, u);
      }
    }
  }

  lemma AdjacencyPair(f: Frame, rules: seq<Rule>, sym2id: map<string, int>, u: nat, v: nat)
    requires WellFormed(f) && AllKnown(rules, sym2id) && u < |f.types| && v < |f.types|
    ensures var adj := AdjacencyOf(f, rules, sym2id).value;
      && (v in adj[u] <==> exists i :: 0 <= i < |rules| && Bonded(f, rules[i], sym2id, u, v))
      && (v in adj[u] <==> u in adj[v])
      && (u == v ==> u !in adj[u])
  {
    AdjacencyEntry(f, rules, sym2id, u);
    AdjacencyEntry(f, rules, sym2id, v);
    LinkedMeaning(f, rules, sym2id, u, v);
    LinkedMeaning(f, rules, sym2id, v, u);
    forall i | 0 <= i < |rules|
      ensures Bonded(f, rules[i], sym2id, u, v) <==> Bonded(f, rules[i], sym2id, v, u)
    {
      WithinSymmetric(f.coords[u], f.coords[v], rules[i].cutoff);
    }
  }

  /** A rule one of whose species has no atom in the frame changes nothing: dropping it gives the same adjacency. */
  lemma {:induction false} EmptySpeciesAddsNothing(f: Frame, rules: seq<Rule>, sym2id: map<string, int>, k: nat)
    requires WellFormed(f) && k < |rules| && AllKnown(rules, sym2id)
    requires (forall u :: 0 <= u < |f.types| ==> f.types[u] != sym2id[rules[k].symA]) ||
             (forall u :: 0 <= u < |f.types| ==> f.types[u] != sym2id[rules[k].symB])
    ensures AdjacencyOf(f, rules[..k] + rules[k + 1..], sym2id) == AdjacencyOf(f, rules, sym2id)
  {
    var rest := rules[..k] + rules[k + 1..];
    assert AllKnown(rest, sym2id) by {
      forall i | 0 <= i < |rest| ensures Known(rest[i], sym2id) {
        if i < k { assert rest[i] == rules[i]; } else { assert rest[i] == rules[i + 1]; }
      }
    }
    var n := |f.types|;
    forall u: nat, v: nat | u < n && v < n
      ensures Linked(f, rest, sym2id, u, v) <==> Linked(f, rules, sym2id, u, v)
    {
      LinkedMeaning(f, rest, sym2id, u, v);
      LinkedMeaning(f, rules, sym2id, u, v);
      assert !Bonded(f, rules[k], sym2id, u, v);
      if exists i :: 0 <= i < |rules| && Bonded(f, rules[i], sym2id, u, v) {
        var i :| 0 <= i < |rules| && Bonded(f, rules[i], sym2id, u, v);
        if i < k { assert rest[i] == rules[i]; } else { assert rest[i - 1] == rules[i]; }
      }
      if exists i :: 0 <= i < |rest| && Bonded(f, rest[i], sym2id, u, v) {
        var i :| 0 <= i < |rest| && Bonded(f, rest[i], sym2id, u, v);
        if i < k { assert rest[i] == rules[i]; } else { assert rest[i] == rules[i + 1]; }
      }
    }
    var a := AdjacencyOf(f, rest, sym2id).value;
    var b := AdjacencyOf(f, rules, sym2id).value;
    forall u | 0 <= u < n ensures a[u] == b[u] {
      AdjacencyEntry(f, rest, sym2id, u);
      AdjacencyEntry(f, rules, sym2id, u);
      assert forall v: nat :: v in a[u] <==> v in b[u];
    }
    assert a == b;
  }

  /** One ordered pair as the KD-tree calls of a rule report it: `query_pairs` yields index-ordered pairs of one species. */
  predicate Reported(f: Frame, idA: int, idB: int, cutoff: real, u: nat, v: nat)
    requires WellFormed(f) && u < |f.types| && v < |f.types|
  {
    f.types[u] == idA && Within(f.coords[u], f.coords[v], cutoff) &&
    if idA == idB then u < v && f.types[v] == idA else f.types[v] == idB
  }

  lemma ReportedBonded(f: Frame, r: Rule, sym2id: map<string, int>, u: nat, v: nat)
    requires WellFormed(f) && Known(r, sym2id) && u < |f.types| && v < |f.types|
    ensures Bonded(f, r, sym2id, u, v) <==>
      Reported(f, sym2id[r.symA], sym2id[r.symB], r.cutoff, u, v) ||
      Reported(f, sym2id[r.symA], sym2id[r.symB], r.cutoff, v, u)
  {
    WithinSymmetric(f.coords[u], f.coords[v], r.cutoff);
  }

  /** Adds the edges of one rule (both directions), leaving the old ones. */
  method AddRule(f: Frame, idA: int, idB: int, cutoff: real, adj0: seq<set<nat>>) returns (adj: seq<set<nat>>)
    requires WellFormed(f) && |adj0| == |f.types| && Bounded(adj0)
    ensures |adj| == |adj0| && Bounded(adj)
    ensures forall x: nat, y: nat :: x < |adj| && y < |adj| ==>
      (y in adj[x] <==> y in adj0[x] || Reported(f, idA, idB, cutoff, x, y) || Reported(f, idA, idB, cutoff, y, x))
  {
    var n := |f.types|;
    if !(exists u :: 0 <= u < n && f.types[u] == idA) || !(exists u :: 0 <= u < n && f.types[u] == idB) {
      return adj0;
    }
    adj := adj0;
    var u := 0;
    while u < n
      invariant 0 <= u <= n && |adj| == n && Bounded(adj)
      invariant forall x: nat, y: nat :: x < n && y < n ==>
        (y in adj[x] <==>
          (y in adj0[x] ||
           (x < u && Reported(f, idA, idB, cutoff, x, y)) || (y < u && Reported(f, idA, idB, cutoff, y, x))))
    {
      if f.types[u] == idA {
        var v := 0;
        while v < n
          invariant 0 <= v <= n && |adj| == n && Bounded(adj)
          invariant forall x: nat, y: nat :: x < n && y < n ==>
            (y in adj[x] <==>
              (y in adj0[x] ||
               ((x < u || (x == u && y < v)) && Reported(f, idA, idB, cutoff, x, y)) ||
               ((y < u || (y == u && x < v)) && Reported(f, idA, idB, cutoff, y, x))))
        {
          if Reported(f, idA, idB, cutoff, u, v) {
            adj := adj[u := adj[u] + {v}];
            adj := adj[v := adj[v] + {u}];
          }
          v := v + 1;
        }
      }
      u := u + 1;
    }
  }

  /** `build_adjacency(types, coords, cutoffs, sym2id)` */
  method BuildAdjacency(f: Frame, rules: seq<Rule>, sym2id: map<string, int>) returns (r: Result<seq<set<nat>>>)
    requires WellFormed(f)
    ensures r == AdjacencyOf(f, rules, sym2id)
  {
    var n := |f.types|;
    var adj: seq<set<nat>> := seq(n, _ => {});
    for k := 0 to |rules|
      invariant |adj| == n && Bounded(adj) && AllKnown(rules[..k], sym2id)
      invariant forall x: nat, y: nat :: x < n && y < n ==> (y in adj[x] <==> Linked(f, rules[..k], sym2id, x, y))
    {
      var rule := rules[k];
      if !(rule.symA in sym2id && rule.symB in sym2id) {
        return Err(KeyError);
      }
      var next := AddRule(f, sym2id[rule.symA], sym2id[rule.symB], rule.cutoff, adj);
      assert rules[..k + 1][..k] == rules[..k];
      assert AllKnown(rules[..k + 1], sym2id);
      forall x: nat, y: nat | x < n && y < n
        ensures y in next[x] <==> Linked(f, rules[..k + 1], sym2id, x, y)
      {
        ReportedBonded(f, rule, sym2id, x, y);
      }
      adj := next;
    }
    assert rules[..|rules|] == rules;
    var spec := AdjacencyOf(f, rules, sym2id).value;
    forall u | 0 <= u < n ensures adj[u] == spec[u] {
      AdjacencyEntry(f, rules, sym2id, u);
      assert forall v: nat :: v in adj[u] <==> v in spec[u];
    }
    assert adj == spec;
    return Ok(adj);
  }

  // ---------------------------------------------------------------------
  // Connected components
  // ---------------------------------------------------------------------

  predicate NoDup(s: seq<nat>) {
    forall i, j :: 0 <= i < j < |s| ==> s[i] != s[j]
  }

  /** `x` belongs to some component. */
  ghost predicate InSome(cs: seq<seq<nat>>, x: nat) {
    exists k :: 0 <= k < |cs| && x in cs[k]
  }

  /** The components are non-empty, repetition-free, pairwise disjoint and cover exactly the atoms `0..n-1`. */
  ghost predicate Partition(n: nat, cs: seq<seq<nat>>) {
    && (forall k :: 0 <= k < |cs| ==> cs[k] != [] && NoDup(cs[k]))
    && (forall k, x :: 0 <= k < |cs| && x in cs[k] ==> x < n)
    && (forall x: nat :: x < n ==> InSome(cs, x))
    && (forall k1, k2, x :: 0 <= k1 < |cs| && 0 <= k2 < |cs| && x in cs[k1] && x in cs[k2] ==> k1 == k2)
  }

  /** Each component starts at its smallest member, and the starts strictly increase. */
  predicate StartsAscending(cs: seq<seq<nat>>) {
    && (forall k :: 0 <= k < |cs| ==> cs[k] != [] && forall x :: x in cs[k] ==> cs[k][0] <= x)
    && (forall k1, k2 :: 0 <= k1 < k2 < |cs| && cs[k1] != [] && cs[k2] != [] ==> cs[k1][0] < cs[k2][0])
  }

  /** `v` is a neighbour of some atom of `prefix`. */
  ghost predicate ReachedFrom(adj: seq<set<nat>>, prefix: seq<nat>, v: nat) {
    exists p :: 0 <= p < |prefix| && prefix[p] < |adj| && v in adj[prefix[p]]
  }

  /** Every member after the first was reached from an earlier member, so the component is connected. */
  ghost predicate Discovered(adj: seq<set<nat>>, c: seq<nat>) {
    |c| <= 1 || (Discovered(adj, c[..|c| - 1]) && ReachedFrom(adj, c[..|c| - 1], c[|c| - 1]))
  }

  /** A neighbour of a member lies in the same component or in an earlier one. */
  ghost predicate ClosedForward(adj: seq<set<nat>>, cs: seq<seq<nat>>) {
    forall k, x, y :: 0 <= k < |cs| && x in cs[k] && x < |adj| && y in adj[x] ==>
      exists k' :: 0 <= k' <= k && y in cs[k']
  }

  /** The atoms `0..n-1`. */
  function Below(n: nat): (r: set<nat>)
    ensures forall x: nat :: x in r <==> x < n
  {
    if n == 0 then {} else Below(n - 1) + {n - 1}
  }

  lemma DiscoveredSnoc(adj: seq<set<nat>>, order: seq<nat>, p: nat, v: nat)
    requires Discovered(adj, order)
    requires p < |order| && order[p] < |adj| && v in adj[order[p]]
    ensures Discovered(adj, order + [v])
  {
    assert (order + [v])[..|order|] == order;
  }

  /** The inner loop of the search: the neighbours of `u` not yet visited, in the order they are queued. */
  method NewNeighbours(adj: seq<set<nat>>, u: nat, visited: set<nat>) returns (added: seq<nat>)
    requires u < |adj|
    ensures NoDup(added)
    ensures forall y :: y in added <==> y in adj[u] && y !in visited
  {
    added := [];
    var seen := visited;
    var todo := adj[u];
    while todo != {}
      invariant todo <= adj[u]
      invariant NoDup(added)
      invariant forall y :: y in seen <==> y in visited || y in added
      invariant forall y :: y in added ==> y in adj[u] && y !in visited && y !in todo
      invariant forall y :: y in adj[u] && y !in todo ==> y in seen
      decreases todo
    {
      var v :| v in todo;
      todo := todo - {v};
      if v !in seen {
        seen := seen + {v};
        added := added + [v];
      }
    }
  }

  /**
   * The state of one search from `i`: `comp + queue` is the discovery order,
   * new atoms only, without repetition; the visited set is the old one plus
   * that order; every neighbour of a dequeued atom has been visited.
   */
  ghost predicate Frontier(adj: seq<set<nat>>, i: nat, visited0: set<nat>, comp: seq<nat>, queue: seq<nat>, visited: set<nat>) {
    var order := comp + queue;
    && order != [] && order[0] == i
    && NoDup(order)
    && (forall x :: x in order ==> x < |adj| && x !in visited0)
    && (forall x :: x in visited <==> x in visited0 || x in order)
    && (forall x, y :: x in comp && x < |adj| && y in adj[x] ==> y in visited)
    && Discovered(adj, order)
  }

  /** Dequeuing `u` and queuing its unvisited neighbours keeps the search state. */
  lemma FrontierStep(adj: seq<set<nat>>, i: nat, visited0: set<nat>, comp: seq<nat>, queue: seq<nat>,
                     visited: set<nat>, added: seq<nat>)
    requires Bounded(adj) && Frontier(adj, i, visited0, comp, queue, visited) && queue != []
    requires queue[0] < |adj|
    requires NoDup(added) && forall y :: y in added <==> y in adj[queue[0]] && y !in visited
    ensures Frontier(adj, i, visited0, comp + [queue[0]], queue[1..] + added, visited + adj[queue[0]])
    ensures added == [] ==> visited + adj[queue[0]] == visited
    ensures added != [] ==> exists y :: y in added && y !in visited && y in visited + adj[queue[0]]
  {
    var u := queue[0];
    var order := comp + queue;
    assert order == (comp + [u]) + queue[1..];
    assert order[|comp|] == u;
    forall t | 0 <= t <= |added| ensures Discovered(adj, order + added[..t]) {
      DiscoveredPrefix(adj, order, added, |comp|, t);
    }
    assert added[..|added|] == added;
    assert NoDup(order + added) by {
      forall a, b | 0 <= a < b < |order + added| ensures (order + added)[a] != (order + added)[b] {
        if b >= |order| && a < |order| {
          assert (order + added)[b] in added;
          assert (order + added)[a] in order;
        }
      }
    }
    assert (comp + [u]) + (queue[1..] + added) == order + added;
    if added != [] { assert added[0] in added; }
  }

  lemma {:induction false} DiscoveredPrefix(adj: seq<set<nat>>, order: seq<nat>, added: seq<nat>, p: nat, t: nat)
    requires Discovered(adj, order) && p < |order| && order[p] < |adj| && t <= |added|
    requires forall y :: y in added ==> y in adj[order[p]]
    ensures Discovered(adj, order + added[..t])
  {
    if t == 0 {
      assert order + added[..0] == order;
    } else {
      DiscoveredPrefix(adj, order, added, p, t - 1);
      assert added[t - 1] in added;
      DiscoveredSnoc(adj, order + added[..t - 1], p, added[t - 1]);
      assert order + added[..t - 1] + [added[t - 1]] == order + added[..t];
    }
  }

  /** One search from `i`: the component it discovers, and the visited set grown by it. */
  method Explore(adj: seq<set<nat>>, i: nat, visited0: set<nat>) returns (comp: seq<nat>, visited: set<nat>)
    requires Bounded(adj) && i < |adj| && i !in visited0
    requires forall x :: x in visited0 ==> x < |adj|
    ensures comp != [] && comp[0] == i && NoDup(comp)
    ensures forall x :: x in comp ==> x < |adj| && x !in visited0
    ensures forall x :: x in visited <==> x in visited0 || x in comp
    ensures forall x, y :: x in comp && x < |adj| && y in adj[x] ==> y in visited
    ensures Discovered(adj, comp)
  {
    comp := [];
    var queue: seq<nat> := [i];
    visited := visited0 + {i};
    while queue != []
      invariant Frontier(adj, i, visited0, comp, queue, visited)
      invariant forall x :: x in visited ==> x < |adj|
      decreases Below(|adj|) - visited, |queue|
    {
      var u := queue[0];
      assert u in comp + queue;
      var added := NewNeighbours(adj, u, visited);
      FrontierStep(adj, i, visited0, comp, queue, visited, added);
      comp, queue, visited := comp + [u], queue[1..] + added, visited + adj[u];
    }
    assert comp + [] == comp;
  }

  /** `visited` holds exactly the atoms of the components found so far. */
  ghost predicate Covers(cs: seq<seq<nat>>, visited: set<nat>) {
    forall x: nat :: x in visited <==> InSome(cs, x)
  }

  /** No atom lies in two components. */
  ghost predicate Disjoint(cs: seq<seq<nat>>) {
    forall k1, k2, x :: 0 <= k1 < |cs| && 0 <= k2 < |cs| && x in cs[k1] && x in cs[k2] ==> k1 == k2
  }

  /** Every component is non-empty, repetition-free, made of atoms below `n` and started below `i`. */
  ghost predicate Shaped(cs: seq<seq<nat>>, n: nat, i: nat) {
    forall k :: 0 <= k < |cs| ==> cs[k] != [] && NoDup(cs[k]) && cs[k][0] < i && forall x :: x in cs[k] ==> x < n
  }

  ghost predicate AllDiscovered(adj: seq<set<nat>>, cs: seq<seq<nat>>) {
    forall k :: 0 <= k < |cs| ==> Discovered(adj, cs[k])
  }

  /** The state after the searches from atoms `0..i-1`. */
  ghost predicate Searched(adj: seq<set<nat>>, cs: seq<seq<nat>>, visited: set<nat>, i: nat) {
    && Covers(cs, visited)
    && (forall x: nat :: x < i ==> x in visited)
    && Shaped(cs, |adj|, i)
    && Disjoint(cs)
    && StartsAscending(cs)
    && ClosedForward(adj, cs)
    && AllDiscovered(adj, cs)
  }

  /**
   * `find_clusters(adj)`: breadth-first search from every atom not yet
   * visited, in index order. The order in which a set of neighbours is
   * visited is not fixed, so neither is the order inside a component.
   */
  method FindClusters(adj: seq<set<nat>>) returns (cs: seq<seq<nat>>)
    requires Bounded(adj)
    ensures Partition(|adj|, cs)
    ensures StartsAscending(cs)
    ensures ClosedForward(adj, cs)
    ensures forall k :: 0 <= k < |cs| ==> Discovered(adj, cs[k])
  {
    var visited: set<nat> := {};
    cs := [];
    for i := 0 to |adj|
      invariant Searched(adj, cs, visited, i)
    {
      if i !in visited {
        var comp, visited' := Explore(adj, i, visited);
        AppendComponent(adj, cs, comp, visited, visited', i);
        cs, visited := cs + [comp], visited';
      } else {
        SearchedSkip(adj, cs, visited, i);
      }
    }
    SearchedDone(adj, cs, visited);
  }

  lemma SearchedSkip(adj: seq<set<nat>>, cs: seq<seq<nat>>, visited: set<nat>, i: nat)
    requires Searched(adj, cs, visited, i) && i in visited
    ensures Searched(adj, cs, visited, i + 1)
  {
  }

  lemma SearchedDone(adj: seq<set<nat>>, cs: seq<seq<nat>>, visited: set<nat>)
    requires Searched(adj, cs, visited, |adj|)
    ensures Partition(|adj|, cs)
    ensures AllDiscovered(adj, cs)
  {
  }

  lemma AppendComponent(adj: seq<set<nat>>, cs: seq<seq<nat>>, comp: seq<nat>,
                        visited0: set<nat>, visited: set<nat>, i: nat)
    requires Searched(adj, cs, visited0, i) && i !in visited0
    requires comp != [] && comp[0] == i && NoDup(comp) && Discovered(adj, comp)
    requires forall x :: x in comp ==> x < |adj| && x !in visited0
    requires forall x :: x in visited <==> x in visited0 || x in comp
    requires forall x, y :: x in comp && x < |adj| && y in adj[x] ==> y in visited
    ensures Searched(adj, cs + [comp], visited, i + 1)
  {
    AppendVisited(adj, cs, comp, visited0, visited);
    AppendOrdered(adj, cs, comp, visited0, i);
    AppendUpTo(comp, visited0, visited, i);
  }

  lemma AppendUpTo(comp: seq<nat>, visited0: set<nat>, visited: set<nat>, i: nat)
    requires forall x: nat :: x < i ==> x in visited0
    requires comp != [] && comp[0] == i
    requires forall x :: x in visited <==> x in visited0 || x in comp
    ensures forall x: nat :: x < i + 1 ==> x in visited
  {
    assert comp[0] in comp;
  }

  /** The parts of `Searched` about the visited set. */
  lemma AppendVisited(adj: seq<set<nat>>, cs: seq<seq<nat>>, comp: seq<nat>, visited0: set<nat>, visited: set<nat>)
    requires Covers(cs, visited0) && Disjoint(cs) && ClosedForward(adj, cs)
    requires forall x :: x in comp ==> x !in visited0
    requires forall x :: x in visited <==> x in visited0 || x in comp
    requires forall x, y :: x in comp && x < |adj| && y in adj[x] ==> y in visited
    ensures Covers(cs + [comp], visited) && Disjoint(cs + [comp]) && ClosedForward(adj, cs + [comp])
  {
    AppendCovers(cs, comp, visited0, visited);
    AppendDisjoint(cs, comp, visited0);
    AppendClosed(adj, cs, comp, visited0, visited);
  }

  /** The parts of `Searched` about the shape and order of the components. */
  lemma AppendOrdered(adj: seq<set<nat>>, cs: seq<seq<nat>>, comp: seq<nat>, visited0: set<nat>, i: nat)
    requires StartsAscending(cs) && Shaped(cs, |adj|, i) && AllDiscovered(adj, cs)
    requires forall x: nat :: x < i ==> x in visited0
    requires comp != [] && comp[0] == i && NoDup(comp) && Discovered(adj, comp)
    requires forall x :: x in comp ==> x < |adj| && x !in visited0
    ensures StartsAscending(cs + [comp]) && Shaped(cs + [comp], |adj|, i + 1) && AllDiscovered(adj, cs + [comp])
  {
    AppendAscending(cs, comp, |adj|, visited0, i);
    AppendShaped(cs, comp, |adj|, i);
    AppendDiscovered(adj, cs, comp);
  }

  lemma AppendCovers(cs: seq<seq<nat>>, comp: seq<nat>, visited0: set<nat>, visited: set<nat>)
    requires Covers(cs, visited0)
    requires forall x :: x in visited <==> x in visited0 || x in comp
    ensures Covers(cs + [comp], visited)
  {
    var cs' := cs + [comp];
    forall x: nat ensures x in visited <==> InSome(cs', x) {
      if InSome(cs, x) {
        var k :| 0 <= k < |cs| && x in cs[k];
        assert x in cs'[k];
      }
      if x in comp { assert x in cs'[|cs|]; }
      if InSome(cs', x) {
        var k :| 0 <= k < |cs'| && x in cs'[k];
        if k < |cs| { assert x in cs[k]; }
      }
    }
  }

  lemma AppendDisjoint(cs: seq<seq<nat>>, comp: seq<nat>, visited0: set<nat>)
    requires Covers(cs, visited0) && Disjoint(cs)
    requires forall x :: x in comp ==> x !in visited0
    ensures Disjoint(cs + [comp])
  {
    var cs' := cs + [comp];
    forall k1, k2, x | 0 <= k1 < |cs'| && 0 <= k2 < |cs'| && x in cs'[k1] && x in cs'[k2] ensures k1 == k2 {
      if k1 < |cs| { assert x in cs[k1]; assert InSome(cs, x); }
      if k2 < |cs| { assert x in cs[k2]; assert InSome(cs, x); }
    }
  }

  lemma AppendClosed(adj: seq<set<nat>>, cs: seq<seq<nat>>, comp: seq<nat>, visited0: set<nat>, visited: set<nat>)
    requires ClosedForward(adj, cs) && Covers(cs, visited0)
    requires forall x :: x in visited <==> x in visited0 || x in comp
    requires forall x, y :: x in comp && x < |adj| && y in adj[x] ==> y in visited
    ensures ClosedForward(adj, cs + [comp])
  {
    var cs' := cs + [comp];
    forall k, x, y | 0 <= k < |cs'| && x in cs'[k] && x < |adj| && y in adj[x]
      ensures exists k' :: 0 <= k' <= k && y in cs'[k']
    {
      if k < |cs| {
        assert x in cs[k];
        var k' :| 0 <= k' <= k && y in cs[k'];
        assert y in cs'[k'];
      } else {
        assert y in visited;
        if y in comp {
          assert y in cs'[|cs|];
        } else {
          var k' :| 0 <= k' < |cs| && y in cs[k'];
          assert y in cs'[k'];
        }
      }
    }
  }

  lemma AppendAscending(cs: seq<seq<nat>>, comp: seq<nat>, n: nat, visited0: set<nat>, i: nat)
    requires StartsAscending(cs) && Shaped(cs, n, i)
    requires forall x: nat :: x < i ==> x in visited0
    requires comp != [] && comp[0] == i
    requires forall x :: x in comp ==> x !in visited0
    ensures StartsAscending(cs + [comp])
  {
    var cs' := cs + [comp];
    forall x | x in comp ensures comp[0] <= x {
    }
    forall k | 0 <= k < |cs'| ensures cs'[k] != [] && forall x :: x in cs'[k] ==> cs'[k][0] <= x {
      if k < |cs| { assert cs'[k] == cs[k]; }
    }
    forall k1, k2 | 0 <= k1 < k2 < |cs'| ensures cs'[k1][0] < cs'[k2][0] {
      if k2 < |cs| { assert cs'[k1] == cs[k1] && cs'[k2] == cs[k2]; }
    }
  }

  lemma AppendShaped(cs: seq<seq<nat>>, comp: seq<nat>, n: nat, i: nat)
    requires Shaped(cs, n, i)
    requires comp != [] && comp[0] == i && NoDup(comp)
    requires forall x :: x in comp ==> x < n
    ensures Shaped(cs + [comp], n, i + 1)
  {
    var cs' := cs + [comp];
    forall k | 0 <= k < |cs'|
      ensures cs'[k] != [] && NoDup(cs'[k]) && cs'[k][0] < i + 1 && forall x :: x in cs'[k] ==> x < n
    {
      if k < |cs| { assert cs'[k] == cs[k]; }
    }
  }

  lemma AppendDiscovered(adj: seq<set<nat>>, cs: seq<seq<nat>>, comp: seq<nat>)
    requires AllDiscovered(adj, cs) && Discovered(adj, comp)
    ensures AllDiscovered(adj, cs + [comp])
  {
    var cs' := cs + [comp];
    forall k | 0 <= k < |cs'| ensures Discovered(adj, cs'[k]) {
      if k < |cs| { assert cs'[k] == cs[k]; }
    }
  }

  /**
   * With a symmetric adjacency, a component holds every neighbour of its
   * members: the components are the connected components.
   */
  lemma ComponentsClosed(adj: seq<set<nat>>, cs: seq<seq<nat>>)
    requires Bounded(adj) && Symmetric(adj)
    requires Partition(|adj|, cs) && ClosedForward(adj, cs)
    ensures forall k, x, y :: 0 <= k < |cs| && x in cs[k] && y in adj[x] ==> y in cs[k]
  {
    forall k, x, y | 0 <= k < |cs| && x in cs[k] && y in adj[x] ensures y in cs[k] {
      assert x < |adj|;
      var k' :| 0 <= k' <= k && y in cs[k'];
      NeighbourNotEarlier(adj, cs, k, x, k', y);
    }
  }

  lemma NeighbourNotEarlier(adj: seq<set<nat>>, cs: seq<seq<nat>>, k: nat, x: nat, k': nat, y: nat)
    requires Bounded(adj) && Symmetric(adj)
    requires Partition(|adj|, cs) && ClosedForward(adj, cs)
    requires k < |cs| && x in cs[k] && k' < |cs| && y in cs[k'] && y in adj[x]
    ensures k <= k'
  {
    assert x < |adj| && y < |adj|;
    assert x in adj[y];
    var k'' :| 0 <= k'' <= k' && x in cs[k''];
  }

  // ---------------------------------------------------------------------
  // Per-frame counts and size histogram
  // ---------------------------------------------------------------------

  /** What `find_clusters` guarantees about its result. */
  ghost predicate Components(adj: seq<set<nat>>, cs: seq<seq<nat>>) {
    && Partition(|adj|, cs)
    && StartsAscending(cs)
    && ClosedForward(adj, cs)
    && (forall k :: 0 <= k < |cs| ==> Discovered(adj, cs[k]))
  }

  /** The clusters of at least two atoms, in their order. */
  function Kept(cs: seq<seq<nat>>): (r: seq<seq<nat>>)
    ensures |r| <= |cs|
  {
    if cs == [] then []
    else Kept(cs[..|cs| - 1]) + (if |cs[|cs| - 1]| >= 2 then [cs[|cs| - 1]] else [])
  }

  /** The kept clusters are exactly those of two or more atoms. */
  lemma {:induction false} KeptMeaning(cs: seq<seq<nat>>)
    ensures forall c :: c in Kept(cs) <==> c in cs && |c| >= 2
  {
    if cs != [] {
      var n := |cs| - 1;
      KeptMeaning(cs[..n]);
      assert cs == cs[..n] + [cs[n]];
    }
  }

  /** The number of clusters of `s` atoms. */
  function SizeCount(cs: seq<seq<nat>>, s: nat): nat {
    if cs == [] then 0
    else SizeCount(cs[..|cs| - 1], s) + (if |cs[|cs| - 1]| == s then 1 else 0)
  }

  /** A single atom never survives the size filter. */
  lemma {:induction false} KeptNoSingles(cs: seq<seq<nat>>, s: nat)
    requires s < 2
    ensures SizeCount(Kept(cs), s) == 0
  {
    if cs != [] {
      var n := |cs| - 1;
      KeptNoSingles(cs[..n], s);
      var extra := if |cs[n]| >= 2 then [cs[n]] else [];
      SizeCountAppend(Kept(cs[..n]), extra, s);
    }
  }

  /** The filter keeps every cluster of two or more atoms. */
  lemma {:induction false} KeptLarge(cs: seq<seq<nat>>, s: nat)
    requires s >= 2
    ensures SizeCount(Kept(cs), s) == SizeCount(cs, s)
  {
    if cs != [] {
      var n := |cs| - 1;
      KeptLarge(cs[..n], s);
      var extra := if |cs[n]| >= 2 then [cs[n]] else [];
      SizeCountAppend(Kept(cs[..n]), extra, s);
    }
  }

  lemma {:induction false} SizeCountAppend(xs: seq<seq<nat>>, ys: seq<seq<nat>>, s: nat)
    ensures SizeCount(xs + ys, s) == SizeCount(xs, s) + SizeCount(ys, s)
    decreases |ys|
  {
    if ys == [] {
      assert xs + ys == xs;
    } else {
      var n := |ys| - 1;
      assert (xs + ys)[..|xs + ys| - 1] == xs + ys[..n];
      SizeCountAppend(xs, ys[..n], s);
    }
  }

  /** The frame indices `idx < n` with `idx % skip == 0`, in order. */
  function Selected(n: nat, skip: int): (sel: seq<nat>)
    requires skip != 0
    ensures forall j :: 0 <= j < |sel| ==> sel[j] < n
  {
    if n == 0 then []
    else Selected(n - 1, skip) + (if (n - 1) % skip == 0 then [n - 1] else [])
  }

  /** A frame is processed iff its index is a multiple of `skip`; processed frames keep their order, and frame 0 is always processed. */
  lemma {:induction false} SelectedMeaning(n: nat, skip: int)
    requires skip != 0
    ensures forall idx :: idx in Selected(n, skip) <==> 0 <= idx < n && idx % skip == 0
    ensures forall j, k :: 0 <= j < k < |Selected(n, skip)| ==> Selected(n, skip)[j] < Selected(n, skip)[k]
    ensures n > 0 ==> Selected(n, skip) != [] && Selected(n, skip)[0] == 0
  {
    if n > 0 {
      SelectedMeaning(n - 1, skip);
      if n == 1 { assert 0 % skip == 0; }
    }
  }

  function Get(hist: map<(nat, int), nat>, key: (nat, int)): nat {
    if key in hist then hist[key] else 0
  }

  /** `size_hist[s][st]` after the frames with the given steps and clusters: kept size-`s` clusters summed over every frame with step `st`. */
  function HistTotal(steps: seq<int>, found: seq<seq<seq<nat>>>, s: nat, st: int): nat
    requires |steps| == |found|
  {
    if steps == [] then 0
    else
      var n := |steps| - 1;
      HistTotal(steps[..n], found[..n], s, st) + (if steps[n] == st then SizeCount(Kept(found[n]), s) else 0)
  }

  /** The inner loop of the frame: one histogram increment per kept cluster. */
  method AddSizes(hist0: map<(nat, int), nat>, kept: seq<seq<nat>>, step: int) returns (hist: map<(nat, int), nat>)
    ensures forall s: nat, st: int :: Get(hist, (s, st)) == Get(hist0, (s, st)) + (if st == step then SizeCount(kept, s) else 0)
  {
    hist := hist0;
    assert kept[..0] == [];
    assert forall s: nat :: SizeCount(kept[..0], s) == 0;
    for t := 0 to |kept|
      invariant forall s: nat, st: int :: Get(hist, (s, st)) == Get(hist0, (s, st)) + (if st == step then SizeCount(kept[..t], s) else 0)
    {
      assert kept[..t + 1][..t] == kept[..t];
      hist := hist[(|kept[t]|, step) := Get(hist, (|kept[t]|, step)) + 1];
    }
    assert kept[..|kept|] == kept;
  }

  datatype Summary = Summary(times: seq<int>, counts: seq<nat>, hist: map<(nat, int), nat>)

  /** A processed frame: its step, its components and its number of kept clusters. */
  ghost predicate Processed(f: Frame, rules: seq<Rule>, sym2id: map<string, int>, t: int, c: nat, cs: seq<seq<nat>>)
    requires WellFormed(f)
  {
    && t == f.step
    && AdjacencyOf(f, rules, sym2id).Ok?
    && Components(AdjacencyOf(f, rules, sym2id).value, cs)
    && c == |Kept(cs)|
  }

  /** The histogram holds the kept cluster sizes of the processed frames. */
  ghost predicate HistMatches(hist: map<(nat, int), nat>, times: seq<int>, found: seq<seq<seq<nat>>>)
    requires |times| == |found|
  {
    forall s: nat, st: int :: Get(hist, (s, st)) == HistTotal(times, found, s, st)
  }

  /** The loop state after the frames `0..idx-1`. */
  ghost predicate Progress(frames: seq<Frame>, skip: int, rules: seq<Rule>, sym2id: map<string, int>, idx: nat,
                           times: seq<int>, counts: seq<nat>, found: seq<seq<seq<nat>>>, hist: map<(nat, int), nat>)
    requires skip != 0 && idx <= |frames|
    requires forall k :: 0 <= k < |frames| ==> WellFormed(frames[k])
  {
    var sel := Selected(idx, skip);
    && |times| == |counts| == |found| == |sel|
    && (sel != [] ==> AllKnown(rules, sym2id))
    && (forall j :: 0 <= j < |sel| ==> Processed(frames[sel[j]], rules, sym2id, times[j], counts[j], found[j]))
    && HistMatches(hist, times, found)
  }

  lemma ProgressSkip(frames: seq<Frame>, skip: int, rules: seq<Rule>, sym2id: map<string, int>, idx: nat,
                     times: seq<int>, counts: seq<nat>, found: seq<seq<seq<nat>>>, hist: map<(nat, int), nat>)
    requires skip != 0 && idx < |frames| && idx % skip != 0
    requires forall k :: 0 <= k < |frames| ==> WellFormed(frames[k])
    requires Progress(frames, skip, rules, sym2id, idx, times, counts, found, hist)
    ensures Progress(frames, skip, rules, sym2id, idx + 1, times, counts, found, hist)
  {
    assert Selected(idx + 1, skip) == Selected(idx, skip);
  }

  lemma HistStep(hist: map<(nat, int), nat>, times: seq<int>, found: seq<seq<seq<nat>>>,
                 step: int, cs: seq<seq<nat>>, hist': map<(nat, int), nat>)
    requires |times| == |found| && HistMatches(hist, times, found)
    requires forall s: nat, st: int ::
      Get(hist', (s, st)) == Get(hist, (s, st)) + (if st == step then SizeCount(Kept(cs), s) else 0)
    ensures HistMatches(hist', times + [step], found + [cs])
  {
    var times', found' := times + [step], found + [cs];
    forall s: nat, st: int ensures Get(hist', (s, st)) == HistTotal(times', found', s, st) {
      assert times'[..|times'| - 1] == times && found'[..|found'| - 1] == found;
    }
  }

  lemma ProgressStep(frames: seq<Frame>, skip: int, rules: seq<Rule>, sym2id: map<string, int>, idx: nat,
                     times: seq<int>, counts: seq<nat>, found: seq<seq<seq<nat>>>, hist: map<(nat, int), nat>,
                     cs: seq<seq<nat>>, hist': map<(nat, int), nat>)
    requires skip != 0 && idx < |frames| && idx % skip == 0
    requires forall k :: 0 <= k < |frames| ==> WellFormed(frames[k])
    requires Progress(frames, skip, rules, sym2id, idx, times, counts, found, hist)
    requires Processed(frames[idx], rules, sym2id, frames[idx].step, |Kept(cs)|, cs)
    requires HistMatches(hist', times + [frames[idx].step], found + [cs])
    ensures Progress(frames, skip, rules, sym2id, idx + 1,
      times + [frames[idx].step], counts + [|Kept(cs)|], found + [cs], hist')
  {
    var sel := Selected(idx, skip);
    var sel' := Selected(idx + 1, skip);
    assert sel' == sel + [idx];
    var times', counts', found' := times + [frames[idx].step], counts + [|Kept(cs)|], found + [cs];
    forall j | 0 <= j < |sel'|
      ensures Processed(frames[sel'[j]], rules, sym2id, times'[j], counts'[j], found'[j])
    {
      if j < |sel| {
        assert sel'[j] == sel[j] && times'[j] == times[j] && found'[j] == found[j] && counts'[j] == counts[j];
      }
    }
  }

  /**
   * The frame loop of the script: every `skip`-th frame (by index) gives its
   * step, its number of clusters of two or more atoms and its histogram
   * increments. `found` holds the components found in each processed frame.
   */
  method Analyse(frames: seq<Frame>, skip: int, rules: seq<Rule>, sym2id: map<string, int>)
    returns (r: Result<Summary>, ghost found: seq<seq<seq<nat>>>)
    requires forall k :: 0 <= k < |frames| ==> WellFormed(frames[k])
    ensures frames != [] && skip == 0 ==> r == Err(ZeroDivisionError)
    ensures frames == [] ==> r == Ok(Summary([], [], map[]))
    ensures skip != 0 ==>
      (r.Err? <==> Selected(|frames|, skip) != [] && !AllKnown(rules, sym2id)) &&
      (r.Err? ==> r.error == KeyError)
    ensures r.Ok? && skip != 0 ==>
      Progress(frames, skip, rules, sym2id, |frames|, r.value.times, r.value.counts, found, r.value.hist)
  {
    found := [];
    if frames == [] {
      return Ok(Summary([], [], map[])), found;
    }
    if skip == 0 {
      return Err(ZeroDivisionError), found;
    }
    var times: seq<int> := [];
    var counts: seq<nat> := [];
    var hist: map<(nat, int), nat> := map[];
    for idx := 0 to |frames|
      invariant Progress(frames, skip, rules, sym2id, idx, times, counts, found, hist)
    {
      if idx % skip != 0 {
        ProgressSkip(frames, skip, rules, sym2id, idx, times, counts, found, hist);
        continue;
      }
      var f := frames[idx];
      var adj := BuildAdjacency(f, rules, sym2id);
      if adj.Err? {
        AdjacencyShape(f, rules, sym2id);
        SelectedGrows(idx + 1, |frames|, skip);
        assert idx in Selected(idx + 1, skip);
        return Err(adj.error), found;
      }
      var cs := FindClusters(adj.value);
      var kept := Kept(cs);
      var hist' := AddSizes(hist, kept, f.step);
      HistStep(hist, times, found, f.step, cs, hist');
      ProgressStep(frames, skip, rules, sym2id, idx, times, counts, found, hist, cs, hist');
      times, counts, found, hist := times + [f.step], counts + [|kept|], found + [cs], hist';
    }
    SelectedGrows(|frames|, |frames|, skip);
    return Ok(Summary(times, counts, hist)), found;
  }

  lemma {:induction false} SelectedGrows(m: nat, n: nat, skip: int)
    requires skip != 0 && m <= n
    ensures |Selected(m, skip)| <= |Selected(n, skip)|
    ensures Selected(m, skip) != [] ==> Selected(n, skip) != []
    decreases n - m
  {
    if m < n { SelectedGrows(m, n - 1, skip); }
  }
}