/**
 * Error of LAMMPS energies against DFT references for every `(d1, d2)`
 * switching pair: reference energies per structure file, LAMMPS result
 * lines grouped by `(d1, d2)`, the mean squared error per group and the
 * ranking of the groups.
 */
module EnergyError {
  import opened Wrappers
  import opened Text
  import opened Tally
  import opened Sorting

  type Key = (real, real)

  /** One structure of a `(d1, d2)` group: its file name and LAMMPS energy. */
  type Entry = (string, real)

  // ---------------------------------------------------------------------
  // Reference energies
  // ---------------------------------------------------------------------

  /** A reference line: the file name is token 0, the energy token 2; a short line raises `IndexError`. */
  function RefLine(line: string, toReal: RealParser): (r: Result<(string, real)>)
    ensures r.Err? ==> r.error == IndexError || r.error == ValueError
  {
    var parts := Words(line);
    if |parts| < 3 then Err(IndexError)
    else match toReal(parts[2])
      case None => Err(ValueError)
      case Some(e) => Ok((parts[0], e))
  }

  function RefPairs(lines: seq<string>, toReal: RealParser): Result<seq<(string, real)>> {
    MapAll(lines, line => RefLine(line, toReal))
  }

  /** The dict after assigning every pair in order. */
  function RefMap(ps: seq<(string, real)>): map<string, real> {
    if ps == [] then map[]
    else RefMap(ps[..|ps| - 1])[ps[|ps| - 1].0 := ps[|ps| - 1].1]
  }

  /** A file name named more than once keeps the energy of its last line. */
  lemma {:induction false} RefMapLastWins(ps: seq<(string, real)>)
    ensures forall name :: name in RefMap(ps) <==> exists i :: 0 <= i < |ps| && ps[i].0 == name
    ensures forall i :: 0 <= i < |ps| && (forall j :: i < j < |ps| ==> ps[j].0 != ps[i].0) ==>
      RefMap(ps)[ps[i].0] == ps[i].1
  {
    if ps != [] {
      var n := |ps| - 1;
      var init := ps[..n];
      RefMapLastWins(init);
      assert forall i :: 0 <= i < n ==> init[i] == ps[i];
    }
  }

  /** `load_reference_energies`: a malformed line stops the whole load. */
  method LoadReferenceEnergies(lines: seq<string>, toReal: RealParser) returns (r: Result<map<string, real>>)
    ensures r.Err? <==> RefPairs(lines, toReal).Err?
    ensures r.Err? ==> r.error == RefPairs(lines, toReal).error
    ensures r.Ok? ==> r.value == RefMap(RefPairs(lines, toReal).value)
  {
    var energies: map<string, real> := map[];
    ghost var ps: seq<(string, real)> := [];
    for i := 0 to |lines|
      invariant RefPairs(lines[..i], toReal) == Ok(ps)
      invariant energies == RefMap(ps)
    {
      assert lines[..i + 1][..i] == lines[..i];
      var p := RefLine(lines[i], toReal);
      if p.Err? {
        MapAllErr(lines, line => RefLine(line, toReal), i + 1, p.error);
        return Err(p.error);
      }
      assert (ps + [p.value])[..|ps|] == ps;
      ps := ps + [p.value];
      energies := energies[p.value.0 := p.value.1];
    }
    assert lines[..|lines|] == lines;
    return Ok(energies);
  }

  // ---------------------------------------------------------------------
  // LAMMPS result lines
  // ---------------------------------------------------------------------

  datatype Params = Params(d1: real, d2: real, filename: string, energy: real)

  /** `float(tok.split('=')[1])` */
  function ValueAfterEq(tok: string, toReal: RealParser): (r: Result<real>)
    ensures r.Err? ==> r.error == IndexError || r.error == ValueError
  {
    var fs := SplitOn(tok, '=');
    if |fs| < 2 then Err(IndexError)
    else match toReal(fs[1])
      case None => Err(ValueError)
      case Some(v) => Ok(v)
  }

  /**
   * `parse_lammps_line`: d1 and d2 after the `=` of tokens 0 and 1, the
   * file name as the last `/` component of token 2 without commas, the
   * energy after the `=` of the last token; the fields are read in that
   * order and the first failure raises.
   */
  function ParseLammpsLine(line: string, toReal: RealParser): Result<Params> {
    var parts := Words(line);
    if |parts| < 1 then Err(IndexError)
    else match ValueAfterEq(parts[0], toReal)
      case Err(e) => Err(e)
      case Ok(d1) =>
        if |parts| < 2 then Err(IndexError)
        else match ValueAfterEq(parts[1], toReal)
          case Err(e) => Err(e)
          case Ok(d2) =>
            if |parts| < 3 then Err(IndexError)
            else
              var filename := RemoveChar(Basename(parts[2]), ',');
              match ValueAfterEq(parts[|parts| - 1], toReal)
              case Err(e) => Err(e)
              case Ok(energy) => Ok(Params(d1, d2, filename, energy))
  }

  /** `name=value` with neither part holding `=` splits back into its value. */
  lemma ValueAfterEqOf(name: string, value: string, toReal: RealParser)
    requires '=' !in name && '=' !in value
    ensures ValueAfterEq(name + "=" + value, toReal) ==
      (if toReal(value).Some? then Ok(toReal(value).value) else Err(ValueError))
  {
    SplitOnJoin([name, value], '=');
    assert Join([name, value], '=') == name + "=" + value;
  }

  predicate Token(w: string) { w != [] && NoSpace(w) }

  /**
   * A result line written as `d1=a d2=b path ... E=e` reads back as the
   * numbers of `a`, `b`, `e` and the base name of `path`.
   */
  lemma ParseLammpsLineRoundTrip(ws: seq<string>, names: seq<string>, a: string, b: string, e: string,
                                 toReal: RealParser, d1: real, d2: real, energy: real)
    requires |ws| >= 4 && |names| == 3
    requires forall k :: 0 <= k < |ws| ==> Token(ws[k])
    requires forall k :: 0 <= k < 3 ==> '=' !in names[k]
    requires '=' !in a && '=' !in b && '=' !in e
    requires ws[0] == names[0] + "=" + a && ws[1] == names[1] + "=" + b && ws[|ws| - 1] == names[2] + "=" + e
    requires toReal(a) == Some(d1) && toReal(b) == Some(d2) && toReal(e) == Some(energy)
    ensures ParseLammpsLine(Join(ws, ' '), toReal) == Ok(Params(d1, d2, RemoveChar(Basename(ws[2]), ','), energy))
  {
    assert Words(Join(ws, ' ')) == ws by {
      WordsJoin(ws);
    }
    assert ValueAfterEq(ws[0], toReal) == Ok(d1) by {
      ValueAfterEqOf(names[0], a, toReal);
    }
    assert ValueAfterEq(ws[1], toReal) == Ok(d2) by {
      ValueAfterEqOf(names[1], b, toReal);
    }
    assert ValueAfterEq(ws[|ws| - 1], toReal) == Ok(energy) by {
      ValueAfterEqOf(names[2], e, toReal);
    }
  }

  function KeyOf(p: Params): Key { (p.d1, p.d2) }

  /** The `results` dict after appending every parsed line to its group. */
  function Groups(ps: seq<Params>): map<Key, seq<Entry>> {
    if ps == [] then map[]
    else
      var g := Groups(ps[..|ps| - 1]);
      var p := ps[|ps| - 1];
      g[KeyOf(p) := (if KeyOf(p) in g then g[KeyOf(p)] else []) + [(p.filename, p.energy)]]
  }

  /** The entries of the lines with key `k`, in line order. */
  function EntriesOf(ps: seq<Params>, k: Key): seq<Entry> {
    if ps == [] then []
    else
      var p := ps[|ps| - 1];
      EntriesOf(ps[..|ps| - 1], k) + (if KeyOf(p) == k then [(p.filename, p.energy)] else [])
  }

  function KeysOf(ps: seq<Params>): (ks: seq<Key>)
    ensures |ks| == |ps|
    ensures forall i :: 0 <= i < |ps| ==> ks[i] == KeyOf(ps[i])
  {
    MapSeq(ps, KeyOf)
  }

  /**
   * Each group holds exactly the entries of its key's lines, in file
   * order; the groups are those of the keys that occur.
   */
  lemma {:induction false} GroupsMeaning(ps: seq<Params>)
    ensures forall k :: k in Groups(ps) <==> k in KeysOf(ps)
    ensures forall k :: k in Groups(ps) ==> Groups(ps)[k] == EntriesOf(ps, k)
    ensures forall k :: k !in KeysOf(ps) ==> EntriesOf(ps, k) == []
  {
    if ps != [] {
      var init := ps[..|ps| - 1];
      GroupsMeaning(init);
      assert forall k :: k in KeysOf(ps) <==> k in KeysOf(init) || k == KeyOf(ps[|ps| - 1]);
    }
  }

  /** The `results` dict: its key order and its groups. */
  datatype Grouped = Grouped(order: seq<Key>, groups: map<Key, seq<Entry>>)

  function ParsedLines(lines: seq<string>, toReal: RealParser): Result<seq<Params>> {
    MapAll(lines, line => ParseLammpsLine(line, toReal))
  }

  /** `load_lammps_results`: a malformed line stops the load. */
  method LoadLammpsResults(lines: seq<string>, toReal: RealParser) returns (r: Result<Grouped>)
    ensures r.Err? <==> ParsedLines(lines, toReal).Err?
    ensures r.Err? ==> r.error == ParsedLines(lines, toReal).error
    ensures r.Ok? ==> r.value.order == FirstSeen(KeysOf(ParsedLines(lines, toReal).value))
    ensures r.Ok? ==> r.value.groups == Groups(ParsedLines(lines, toReal).value)
  {
    var order: seq<Key> := [];
    var groups: map<Key, seq<Entry>> := map[];
    ghost var ps: seq<Params> := [];
    for i := 0 to |lines|
      invariant ParsedLines(lines[..i], toReal) == Ok(ps)
      invariant order == FirstSeen(KeysOf(ps)) && groups == Groups(ps)
    {
      assert lines[..i + 1][..i] == lines[..i];
      var data := ParseLammpsLine(lines[i], toReal);
      if data.Err? {
        MapAllErr(lines, line => ParseLammpsLine(line, toReal), i + 1, data.error);
        return Err(data.error);
      }
      var p := data.value;
      var key := (p.d1, p.d2);
      ghost var order0, groups0 := order, groups;
      if key !in groups {
        order := order + [key];
      }
      groups := groups[key := (if key in groups then groups[key] else []) + [(p.filename, p.energy)]];
      GroupedStep(ps, p, order0, groups0, order, groups);
      ParsedStep(lines, i, toReal, ps, p);
      ps := ps + [p];
    }
    assert lines[..|lines|] == lines;
    return Ok(Grouped(order, groups));
  }

  /** A line that parses extends the parsed prefix by its parameters. */
  lemma ParsedStep(lines: seq<string>, i: nat, toReal: RealParser, ps: seq<Params>, p: Params)
    requires i < |lines| && ParsedLines(lines[..i], toReal) == Ok(ps)
    requires ParseLammpsLine(lines[i], toReal) == Ok(p)
    ensures ParsedLines(lines[..i + 1], toReal) == Ok(ps + [p])
  {
    assert lines[..i + 1][..i] == lines[..i];
  }

  /** One pass of the loader loop: the key order and the groups after one more line. */
  lemma GroupedStep(ps: seq<Params>, p: Params, order0: seq<Key>, groups0: map<Key, seq<Entry>>,
                    order: seq<Key>, groups: map<Key, seq<Entry>>)
    requires order0 == FirstSeen(KeysOf(ps)) && groups0 == Groups(ps)
    requires order == if KeyOf(p) in groups0 then order0 else order0 + [KeyOf(p)]
    requires groups == groups0[KeyOf(p) := (if KeyOf(p) in groups0 then groups0[KeyOf(p)] else []) + [(p.filename, p.energy)]]
    ensures order == FirstSeen(KeysOf(ps + [p])) && groups == Groups(ps + [p])
  {
    GroupKeys(ps);
    var ps' := ps + [p];
    assert ps'[..|ps|] == ps;
    assert KeysOf(ps')[..|ps|] == KeysOf(ps);
    assert order0 + [] == order0;
  }

  lemma {:induction false} GroupKeys(ps: seq<Params>)
    ensures forall k :: k in Groups(ps) <==> k in FirstSeen(KeysOf(ps))
  {
    if ps != [] {
      var init := ps[..|ps| - 1];
      GroupKeys(init);
      assert KeysOf(ps)[..|ps| - 1] == KeysOf(init);
    }
  }

  // ---------------------------------------------------------------------
  // Errors per group
  // ---------------------------------------------------------------------

  /** `reference.get(filename)` is truthy: present and not `0.0`. */
  predicate Counted(reference: map<string, real>, name: string) {
    name in reference && reference[name] != 0.0
  }

  function Sq(x: real): (y: real)
    ensures y >= 0.0
    ensures x == 0.0 ==> y == 0.0
  {
    x * x
  }

  /** The squared errors of the counted entries, in entry order. */
  function Errors(reference: map<string, real>, entries: seq<Entry>): (errs: seq<real>)
    ensures |errs| <= |entries|
  {
    if entries == [] then []
    else
      var (name, e) := entries[|entries| - 1];
      Errors(reference, entries[..|entries| - 1]) +
        (if Counted(reference, name) then [Sq(e - reference[name])] else [])
  }

  function Sum(xs: seq<real>): real {
    if xs == [] then 0.0 else Sum(xs[..|xs| - 1]) + xs[|xs| - 1]
  }

  /** `np.mean(errors)` */
  function Mean(xs: seq<real>): real
    requires |xs| > 0
  {
    Sum(xs) / (|xs| as real)
  }

  /** The inner loop over one group's entries. */
  method SquaredErrors(reference: map<string, real>, entries: seq<Entry>) returns (errs: seq<real>)
    ensures errs == Errors(reference, entries)
  {
    errs := [];
    for i := 0 to |entries|
      invariant errs == Errors(reference, entries[..i])
    {
      assert entries[..i + 1][..i] == entries[..i];
      var (name, e) := entries[i];
      if name in reference && reference[name] != 0.0 {
        errs := errs + [Sq(e - reference[name])];
      }
    }
    assert entries[..|entries|] == entries;
  }

  /** A group has an error exactly when one of its entries has a truthy reference. */
  lemma {:induction false} ErrorsNonEmpty(reference: map<string, real>, entries: seq<Entry>)
    ensures Errors(reference, entries) != [] <==>
      exists i :: 0 <= i < |entries| && Counted(reference, entries[i].0)
  {
    if entries != [] {
      var init := entries[..|entries| - 1];
      ErrorsNonEmpty(reference, init);
      assert forall i :: 0 <= i < |init| ==> init[i] == entries[i];
    }
  }

  lemma {:induction false} SumNonNegative(xs: seq<real>)
    requires forall i :: 0 <= i < |xs| ==> xs[i] >= 0.0
    ensures Sum(xs) >= 0.0
    ensures (forall i :: 0 <= i < |xs| ==> xs[i] == 0.0) ==> Sum(xs) == 0.0
  {
    if xs != [] {
      var init := xs[..|xs| - 1];
      assert forall i :: 0 <= i < |init| ==> init[i] == xs[i];
      SumNonNegative(init);
    }
  }

  lemma {:induction false} ErrorsShape(reference: map<string, real>, entries: seq<Entry>)
    ensures forall i :: 0 <= i < |Errors(reference, entries)| ==> Errors(reference, entries)[i] >= 0.0
    ensures (forall i :: 0 <= i < |entries| && Counted(reference, entries[i].0) ==> entries[i].1 == reference[entries[i].0]) ==>
      forall i :: 0 <= i < |Errors(reference, entries)| ==> Errors(reference, entries)[i] == 0.0
  {
    if entries != [] {
      var init := entries[..|entries| - 1];
      ErrorsShape(reference, init);
      assert forall i :: 0 <= i < |init| ==> init[i] == entries[i];
    }
  }

  /**
   * The mean squared error is never negative, and it is zero when every
   * counted structure matches its reference energy.
   */
  lemma MeanSquaredError(reference: map<string, real>, entries: seq<Entry>)
    requires Errors(reference, entries) != []
    ensures Mean(Errors(reference, entries)) >= 0.0
    ensures (forall i :: 0 <= i < |entries| && Counted(reference, entries[i].0) ==> entries[i].1 == reference[entries[i].0]) ==>
      Mean(Errors(reference, entries)) == 0.0
  {
    var errs := Errors(reference, entries);
    ErrorsShape(reference, entries);
    SumNonNegative(errs);
    RatioSign(Sum(errs), |errs| as real);
  }

  lemma RatioSign(s: real, n: real)
    requires s >= 0.0 && n > 0.0
    ensures s / n >= 0.0
    ensures s == 0.0 ==> s / n == 0.0
  {}

  /** The keys of `order` whose group has a counted entry, in order. */
  function ScoredKeys(reference: map<string, real>, order: seq<Key>, groups: map<Key, seq<Entry>>): seq<Key>
    requires forall i :: 0 <= i < |order| ==> order[i] in groups
  {
    if order == [] then []
    else
      var k := order[|order| - 1];
      ScoredKeys(reference, order[..|order| - 1], groups) + (if Errors(reference, groups[k]) != [] then [k] else [])
  }

  /** The `rmse_values` dict: its key order and values are the mean squared errors. */
  ghost predicate Scored(reference: map<string, real>, order: seq<Key>, groups: map<Key, seq<Entry>>,
                   rorder: seq<Key>, mse: map<Key, real>)
    requires forall i :: 0 <= i < |order| ==> order[i] in groups
  {
    rorder == ScoredKeys(reference, order, groups) &&
    (forall k :: k in mse <==> k in rorder) &&
    (forall k :: k in mse ==>
      (k in groups && Errors(reference, groups[k]) != [] && mse[k] == Mean(Errors(reference, groups[k]))))
  }

  /** `calculate_rmse`, stopping short of the square root. */
  method CalculateRmse(reference: map<string, real>, order: seq<Key>, groups: map<Key, seq<Entry>>)
    returns (rorder: seq<Key>, mse: map<Key, real>)
    requires forall i :: 0 <= i < |order| ==> order[i] in groups
    requires Distinct(order)
    ensures Scored(reference, order, groups, rorder, mse)
  {
    rorder, mse := [], map[];
    for n := 0 to |order|
      invariant Scored(reference, order[..n], groups, rorder, mse)
      invariant forall k :: k in rorder ==> k in order[..n]
    {
      var k := order[n];
      var errs := SquaredErrors(reference, groups[k]);
      ghost var rorder0, mse0 := rorder, mse;
      if errs != [] {
        rorder := rorder + [k];
        mse := mse[k := Mean(errs)];
      }
      ScoredStep(reference, order, groups, n, rorder0, mse0, rorder, mse);
    }
    assert order[..|order|] == order;
  }

  /** One pass of the scoring loop: the key `order[n]` is added when its group has a counted entry. */
  lemma ScoredStep(reference: map<string, real>, order: seq<Key>, groups: map<Key, seq<Entry>>, n: nat,
                   rorder0: seq<Key>, mse0: map<Key, real>, rorder: seq<Key>, mse: map<Key, real>)
    requires forall i :: 0 <= i < |order| ==> order[i] in groups
    requires Distinct(order) && n < |order|
    requires Scored(reference, order[..n], groups, rorder0, mse0)
    requires forall k :: k in rorder0 ==> k in order[..n]
    requires Errors(reference, groups[order[n]]) != [] ==>
      rorder == rorder0 + [order[n]] && mse == mse0[order[n] := Mean(Errors(reference, groups[order[n]]))]
    requires Errors(reference, groups[order[n]]) == [] ==> rorder == rorder0 && mse == mse0
    ensures Scored(reference, order[..n + 1], groups, rorder, mse)
    ensures forall k :: k in rorder ==> k in order[..n + 1]
  {
    assert order[..n + 1][..n] == order[..n];
    assert order[n] !in order[..n];
    assert rorder0 + [] == rorder0;
  }

  /** A key is scored iff some structure of its group has a truthy reference. */
  lemma {:induction false} ScoredKeysMeaning(reference: map<string, real>, order: seq<Key>, groups: map<Key, seq<Entry>>)
    requires forall i :: 0 <= i < |order| ==> order[i] in groups
    ensures forall k :: k in ScoredKeys(reference, order, groups) <==>
      k in order && exists i :: 0 <= i < |groups[k]| && Counted(reference, groups[k][i].0)
  {
    if order != [] {
      var init := order[..|order| - 1];
      ScoredKeysMeaning(reference, init, groups);
      assert forall k :: k in order <==> k in init || k == order[|order| - 1];
      ErrorsNonEmpty(reference, groups[order[|order| - 1]]);
      forall k | k in init
        ensures Errors(reference, groups[k]) != [] <==> exists i :: 0 <= i < |groups[k]| && Counted(reference, groups[k][i].0)
      {
        ErrorsNonEmpty(reference, groups[k]);
      }
    }
  }

  // ---------------------------------------------------------------------
  // Ranking
  // ---------------------------------------------------------------------

  function Get(mse: map<Key, real>): Key -> real {
    k => if k in mse then mse[k] else 0.0
  }

  function KeyOfItem(item: (Key, real)): Key { item.0 }

  function Take<T>(xs: seq<T>, n: nat): (r: seq<T>)
    ensures |r| == if |xs| < n then |xs| else n
    ensures r == xs[..|r|]
  {
    if |xs| < n then xs else xs[..n]
  }

  /** The listing in ascending error, and the at most three best keys. */
  datatype Ranking = Ranking(rows: seq<(Key, real)>, best: seq<Key>)

  /** `format_results`: all items by ascending error, then `sorted(keys, key=get)[:3]`. */
  function FormatResults(order: seq<Key>, mse: map<Key, real>): Ranking
    requires Covers(order, mse)
  {
    Ranking(SortBy(Items(order, mse), Value), Take(SortBy(order, Get(mse)), 3))
  }

  /**
   * The listing is in ascending error with each item once, and the best
   * keys are the keys of its first (at most three) rows.
   */
  lemma BestArePrefix(order: seq<Key>, mse: map<Key, real>)
    requires Covers(order, mse)
    ensures SortedBy(FormatResults(order, mse).rows, Value)
    ensures multiset(FormatResults(order, mse).rows) == multiset(Items(order, mse))
    ensures var r := FormatResults(order, mse);
      r.best == MapSeq(r.rows, KeyOfItem)[..|r.best|] && |r.best| == if |order| < 3 then |order| else 3
  {
    var items := Items(order, mse);
    assert MapSeq(items, KeyOfItem) == order;
    SortByMeaning(items, Value);
    SortByMap(items, KeyOfItem, Value, Get(mse));
  }
}
