/**
 * Global optimum of the ZBL switching parameters: every per-pair RMSE
 * table lists `(d1, d2, rmse)` rows after a `=` separator line; the rmse
 * of each `(d1, d2)` is summed over all tables and the combination with
 * the smallest total is reported, together with all totals in ascending
 * order.
 */
module ZblOptimum {
  import opened Wrappers
  import opened Text
  import opened Tally
  import opened Sorting

  type Key = (real, real)

  /** One `((d1, d2), rmse)` yielded by a table. */
  datatype Yield = Yield(key: Key, rmse: real)

  // ---------------------------------------------------------------------
  // Reading one table
  // ---------------------------------------------------------------------

  /**
   * One past the first line that starts with `=`, or 0 when there is none:
   * the data begin right after the separator, or at the top.
   */
  function FindDataStart(lines: seq<string>): (start: nat)
    ensures start <= |lines|
    ensures start > 0 ==> StartsWith(lines[start - 1], "=")
    ensures forall i :: 0 <= i < |lines| && (start == 0 || i < start - 1) ==> !StartsWith(lines[i], "=")
  {
    if lines == [] then 0
    else if StartsWith(lines[0], "=") then 1
    else
      var r := FindDataStart(lines[1..]);
      if r == 0 then 0 else r + 1
  }

  /** A data line: at least three tokens, the first three numeric; anything else is skipped. */
  function RmseLine(line: string, toReal: RealParser): Option<Yield> {
    var parts := Words(line);
    if |parts| < 3 then None
    else match (toReal(parts[0]), toReal(parts[1]), toReal(parts[2]))
      case (Some(d1), Some(d2), Some(rmse)) => Some(Yield((d1, d2), rmse))
      case _ => None
  }

  /** A row written as three numbers (and perhaps more columns) reads back as its values. */
  lemma RmseLineRoundTrip(ws: seq<string>, toReal: RealParser, d1: real, d2: real, rmse: real)
    requires |ws| >= 3
    requires forall k :: 0 <= k < |ws| ==> ws[k] != [] && NoSpace(ws[k])
    requires toReal(ws[0]) == Some(d1) && toReal(ws[1]) == Some(d2) && toReal(ws[2]) == Some(rmse)
    ensures RmseLine(Join(ws, ' '), toReal) == Some(Yield((d1, d2), rmse))
  {
    WordsJoin(ws);
  }

  /** The yields of the data lines, in line order. */
  function Yields(lines: seq<string>, toReal: RealParser): seq<Yield> {
    if lines == [] then []
    else
      var last := RmseLine(lines[|lines| - 1], toReal);
      Yields(lines[..|lines| - 1], toReal) + (if last.Some? then [last.value] else [])
  }

  /** Each yield comes from a data line, and each data line yields once. */
  lemma {:induction false} YieldsMeaning(lines: seq<string>, toReal: RealParser)
    ensures forall y :: y in Yields(lines, toReal) ==>
      exists i :: 0 <= i < |lines| && RmseLine(lines[i], toReal) == Some(y)
    ensures forall i :: 0 <= i < |lines| && RmseLine(lines[i], toReal).Some? ==>
      RmseLine(lines[i], toReal).value in Yields(lines, toReal)
    ensures |Yields(lines, toReal)| <= |lines|
  {
    if lines != [] {
      var init := lines[..|lines| - 1];
      YieldsMeaning(init, toReal);
      assert forall i :: 0 <= i < |init| ==> init[i] == lines[i];
    }
  }

  /** A table that cannot be opened yields nothing. */
  function FileYields(file: Option<seq<string>>, toReal: RealParser): seq<Yield> {
    match file
    case None => []
    case Some(lines) => Yields(lines[FindDataStart(lines)..], toReal)
  }

  /** The generator over one table. */
  method ProcessRmseFile(file: Option<seq<string>>, toReal: RealParser) returns (ys: seq<Yield>)
    ensures ys == FileYields(file, toReal)
  {
    ys := [];
    if file.None? {
      return;
    }
    var lines := file.value;
    var data := lines[FindDataStart(lines)..];
    for n := 0 to |data|
      invariant ys == Yields(data[..n], toReal)
    {
      assert data[..n + 1][..n] == data[..n];
      var y := RmseLine(data[n], toReal);
      if y.Some? {
        ys := ys + [y.value];
      }
    }
    assert data[..|data|] == data;
  }

  // ---------------------------------------------------------------------
  // Accumulating over all tables
  // ---------------------------------------------------------------------

  /** The yields of all tables, table after table. */
  function AllYields(files: seq<Option<seq<string>>>, toReal: RealParser): seq<Yield> {
    if files == [] then []
    else AllYields(files[..|files| - 1], toReal) + FileYields(files[|files| - 1], toReal)
  }

  function KeysOf(ys: seq<Yield>): (ks: seq<Key>)
    ensures |ks| == |ys|
    ensures forall i :: 0 <= i < |ys| ==> ks[i] == ys[i].key
  {
    if ys == [] then [] else KeysOf(ys[..|ys| - 1]) + [ys[|ys| - 1].key]
  }

  /** Sum of the rmse of the yields with key `k`. */
  function TotalOf(ys: seq<Yield>, k: Key): real {
    if ys == [] then 0.0
    else TotalOf(ys[..|ys| - 1], k) + (if ys[|ys| - 1].key == k then ys[|ys| - 1].rmse else 0.0)
  }

  /** The `total_rmse` dict after the yields `ys`, updated one yield at a time. */
  function Totals(ys: seq<Yield>): map<Key, real> {
    if ys == [] then map[]
    else
      var t := Totals(ys[..|ys| - 1]);
      var y := ys[|ys| - 1];
      t[y.key := (if y.key in t then t[y.key] else 0.0) + y.rmse]
  }

  /** The `counts` dict after the yields `ys`. */
  function Counts(ys: seq<Yield>): map<Key, nat> {
    if ys == [] then map[]
    else
      var c := Counts(ys[..|ys| - 1]);
      var y := ys[|ys| - 1];
      c[y.key := (if y.key in c then c[y.key] else 0) + 1]
  }

  /** The key order, the totals and the counts after the yields `ys`. */
  predicate Tallied(ys: seq<Yield>, order: seq<Key>, total: map<Key, real>, counts: map<Key, nat>) {
    order == FirstSeen(KeysOf(ys)) && total == Totals(ys) && counts == Counts(ys)
  }

  /**
   * The total of a key is the sum of its rmse over all yields and its
   * count the number of its yields; the keys are exactly those yielded.
   */
  lemma TotalsMeaning(ys: seq<Yield>)
    ensures forall k :: k in Totals(ys) <==> k in KeysOf(ys)
    ensures forall k :: k in Counts(ys) <==> k in KeysOf(ys)
    ensures forall k :: k in Totals(ys) ==> Totals(ys)[k] == TotalOf(ys, k)
    ensures forall k :: k in Counts(ys) ==> Counts(ys)[k] == CountOf(KeysOf(ys), k)
    ensures forall k :: k !in KeysOf(ys) ==> TotalOf(ys, k) == 0.0
  {
    TotalsKeys(ys);
    TotalsSums(ys);
    CountsSums(ys);
  }

  lemma {:induction false} TotalsKeys(ys: seq<Yield>)
    ensures forall k :: k in Totals(ys) <==> k in KeysOf(ys)
    ensures forall k :: k in Counts(ys) <==> k in KeysOf(ys)
  {
    if ys != [] {
      var init := ys[..|ys| - 1];
      TotalsKeys(init);
      assert KeysOf(ys) == KeysOf(init) + [ys[|ys| - 1].key];
    }
  }

  lemma {:induction false} TotalsSums(ys: seq<Yield>)
    ensures forall k :: k in Totals(ys) ==> Totals(ys)[k] == TotalOf(ys, k)
    ensures forall k :: k !in KeysOf(ys) ==> TotalOf(ys, k) == 0.0
  {
    if ys != [] {
      var init := ys[..|ys| - 1];
      TotalsSums(init);
      TotalsKeys(init);
      assert KeysOf(ys) == KeysOf(init) + [ys[|ys| - 1].key];
    }
  }

  lemma {:induction false} CountsSums(ys: seq<Yield>)
    ensures forall k :: k in Counts(ys) ==> Counts(ys)[k] == CountOf(KeysOf(ys), k)
  {
    if ys != [] {
      var init := ys[..|ys| - 1];
      CountsSums(init);
      TotalsKeys(init);
      assert KeysOf(ys)[..|ys| - 1] == KeysOf(init);
    }
  }

  lemma {:induction false} TallyKeys(ys: seq<Yield>)
    ensures forall k :: k in Totals(ys) <==> k in FirstSeen(KeysOf(ys))
    ensures forall k :: k in Counts(ys) <==> k in FirstSeen(KeysOf(ys))
  {
    if ys != [] {
      var init := ys[..|ys| - 1];
      TallyKeys(init);
      assert KeysOf(ys)[..|ys| - 1] == KeysOf(init);
    }
  }

  lemma TalliedStep(ys: seq<Yield>, y: Yield, order0: seq<Key>, total0: map<Key, real>, counts0: map<Key, nat>,
                    order: seq<Key>, total: map<Key, real>, counts: map<Key, nat>)
    requires Tallied(ys, order0, total0, counts0)
    requires order == if y.key in total0 then order0 else order0 + [y.key]
    requires total == total0[y.key := (if y.key in total0 then total0[y.key] else 0.0) + y.rmse]
    requires counts == counts0[y.key := (if y.key in counts0 then counts0[y.key] else 0) + 1]
    ensures Tallied(ys + [y], order, total, counts)
  {
    assert y.key in total0 <==> y.key in order0 by {
      TallyKeys(ys);
    }
    TotalsStep(ys, y);
    assert Totals(ys + [y]) == total;
    CountsStep(ys, y);
    assert Counts(ys + [y]) == counts;
    KeysStep(ys, y);
    assert FirstSeen(KeysOf(ys + [y])) == order;
  }

  lemma TotalsStep(ys: seq<Yield>, y: Yield)
    ensures var t := Totals(ys);
      Totals(ys + [y]) == t[y.key := (if y.key in t then t[y.key] else 0.0) + y.rmse]
  {
    assert (ys + [y])[..|ys|] == ys;
  }

  lemma CountsStep(ys: seq<Yield>, y: Yield)
    ensures var c := Counts(ys);
      Counts(ys + [y]) == c[y.key := (if y.key in c then c[y.key] else 0) + 1]
  {
    assert (ys + [y])[..|ys|] == ys;
  }

  lemma KeysStep(ys: seq<Yield>, y: Yield)
    ensures var o := FirstSeen(KeysOf(ys));
      FirstSeen(KeysOf(ys + [y])) == if y.key in o then o else o + [y.key]
  {
    assert (ys + [y])[..|ys|] == ys;
    var keys := KeysOf(ys + [y]);
    assert keys[..|ys|] == KeysOf(ys);
    var o := FirstSeen(KeysOf(ys));
    assert o + [] == o;
  }

  lemma SnocSlice<T>(xs: seq<T>, ys: seq<T>, j: nat)
    requires j < |ys|
    ensures xs + ys[..j + 1] == xs + ys[..j] + [ys[j]]
  {
    assert ys[..j + 1] == ys[..j] + [ys[j]];
  }

  /** One `+=` on each dict for the yield `y`. */
  method AddYield(ghost done: seq<Yield>, y: Yield, order0: seq<Key>, total0: map<Key, real>, counts0: map<Key, nat>)
    returns (order: seq<Key>, total: map<Key, real>, counts: map<Key, nat>)
    requires Tallied(done, order0, total0, counts0)
    ensures Tallied(done + [y], order, total, counts)
  {
    var k := y.key;
    order := if k in total0 then order0 else order0 + [k];
    total := total0[k := (if k in total0 then total0[k] else 0.0) + y.rmse];
    counts := counts0[k := (if k in counts0 then counts0[k] else 0) + 1];
    TalliedStep(done, y, order0, total0, counts0, order, total, counts);
  }

  /** The inner loop: fold the yields of one table into the running tallies. */
  method AddYields(ghost before: seq<Yield>, ys: seq<Yield>, order0: seq<Key>, total0: map<Key, real>, counts0: map<Key, nat>)
    returns (order: seq<Key>, total: map<Key, real>, counts: map<Key, nat>)
    requires Tallied(before, order0, total0, counts0)
    ensures Tallied(before + ys, order, total, counts)
  {
    order, total, counts := order0, total0, counts0;
    ghost var done := before;
    assert before + ys[..0] == before;
    for j := 0 to |ys|
      invariant done == before + ys[..j]
      invariant Tallied(done, order, total, counts)
    {
      SnocSlice(before, ys, j);
      order, total, counts := AddYield(done, ys[j], order, total, counts);
      done := done + [ys[j]];
    }
    assert ys[..|ys|] == ys;
  }

  /**
   * `accumulate_rmse`: a running total and a count per `(d1, d2)`, in
   * the order keys were first met.
   */
  method AccumulateRmse(files: seq<Option<seq<string>>>, toReal: RealParser)
    returns (order: seq<Key>, total: map<Key, real>, counts: map<Key, nat>)
    ensures Tallied(AllYields(files, toReal), order, total, counts)
  {
    order, total, counts := [], map[], map[];
    for f := 0 to |files|
      invariant Tallied(AllYields(files[..f], toReal), order, total, counts)
    {
      assert files[..f + 1][..f] == files[..f];
      var ys := ProcessRmseFile(files[f], toReal);
      order, total, counts := AddYields(AllYields(files[..f], toReal), ys, order, total, counts);
    }
    assert files[..|files|] == files;
  }

  /**
   * Every key that is counted at all is counted at least once, so the
   * "never found" warning cannot fire; the keys are those of the yields,
   * each once.
   */
  lemma CountsPositive(ys: seq<Yield>, order: seq<Key>, total: map<Key, real>, counts: map<Key, nat>)
    requires Tallied(ys, order, total, counts)
    ensures forall k :: k in counts ==> counts[k] >= 1
    ensures forall k :: k in total <==> exists i :: 0 <= i < |ys| && ys[i].key == k
    ensures forall k :: k in total <==> k in order
    ensures Distinct(order)
  {
    TotalsMeaning(ys);
    TallyKeys(ys);
    FirstSeenMeaning(KeysOf(ys));
    forall k | k in total
      ensures exists i :: 0 <= i < |ys| && ys[i].key == k
    {
      var i :| 0 <= i < |KeysOf(ys)| && KeysOf(ys)[i] == k;
    }
  }

  // ---------------------------------------------------------------------
  // The optimum and the summary
  // ---------------------------------------------------------------------

  /**
   * `min(total.items(), key=value)`: a key of least total; on a tie the
   * one met first, since `min` only replaces on a strictly smaller value.
   */
  function MinItem(order: seq<Key>, total: map<Key, real>): (best: (Key, real))
    requires |order| > 0 && Covers(order, total)
    ensures best.0 in total && best.1 == total[best.0]
    ensures forall i :: 0 <= i < |order| ==> best.1 <= total[order[i]]
    ensures exists i ::
      0 <= i < |order| && order[i] == best.0 && forall j :: 0 <= j < i ==> total[order[j]] > best.1
  {
    if |order| == 1 then (order[0], total[order[0]])
    else
      var n := |order| - 1;
      var m := MinItem(order[..n], total);
      assert forall i :: 0 <= i < n ==> order[..n][i] == order[i];
      if total[order[n]] < m.1 then (order[n], total[order[n]]) else m
  }

  /** `find_optimal_parameters`: `min` of no items raises `ValueError`. */
  function FindOptimalParameters(order: seq<Key>, total: map<Key, real>): (r: Result<(Key, real)>)
    requires Covers(order, total)
    ensures r.Err? <==> order == []
    ensures r.Err? ==> r.error == ValueError
    ensures r.Ok? ==> r.value == MinItem(order, total)
  {
    if order == [] then Err(ValueError) else Ok(MinItem(order, total))
  }

  /** The summary rows: every `(key, total)` by ascending total, ties in key order. */
  function SummaryRows(order: seq<Key>, total: map<Key, real>): seq<(Key, real)>
    requires Covers(order, total)
  {
    SortBy(Items(order, total), Value)
  }

  /**
   * The summary lists each item once, in ascending total, and its first
   * row carries the optimal total.
   */
  lemma SummaryHeadIsOptimum(order: seq<Key>, total: map<Key, real>)
    requires |order| > 0 && Covers(order, total)
    ensures SortedBy(SummaryRows(order, total), Value)
    ensures multiset(SummaryRows(order, total)) == multiset(Items(order, total))
    ensures SummaryRows(order, total)[0].1 == MinItem(order, total).1
  {
    var rows := SummaryRows(order, total);
    var items := Items(order, total);
    var best := MinItem(order, total);
    SortByMeaning(items, Value);
    assert rows[0] in multiset(items);
    var i :| 0 <= i < |items| && items[i] == rows[0];
    var b :| 0 <= b < |order| && order[b] == best.0;
    assert items[b] in multiset(rows);
    var j :| 0 <= j < |rows| && rows[j] == items[b];
    assert Value(rows[0]) <= Value(rows[j]);
  }

  /** What the run leaves behind: the optimum and the ordered summary. */
  datatype Report = Report(best: Key, bestTotal: real, rows: seq<(Key, real)>)

  /**
   * The whole run: with no data at all, an error message and no report;
   * otherwise the optimum over the accumulated totals and the summary.
   */
  method Optimise(files: seq<Option<seq<string>>>, toReal: RealParser) returns (r: Option<Report>)
    ensures r.None? <==> AllYields(files, toReal) == []
    ensures r.Some? ==> exists order: seq<Key>, total: map<Key, real>, counts: map<Key, nat> ::
      Tallied(AllYields(files, toReal), order, total, counts) && Covers(order, total) && |order| > 0 &&
      r.value == Report(MinItem(order, total).0, MinItem(order, total).1, SummaryRows(order, total))
  {
    var order, total, counts := AccumulateRmse(files, toReal);
    ghost var ys := AllYields(files, toReal);
    CountsPositive(ys, order, total, counts);
    if ys != [] {
      assert ys[0].key in total;
    }
    if total == map[] {
      return None;
    }
    var k :| k in total;
    assert k in order;
    var best := FindOptimalParameters(order, total);
    r := Some(Report(best.value.0, best.value.1, SummaryRows(order, total)));
  }
}
