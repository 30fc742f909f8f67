/**
 * The tolerant RDF reader of cal_rdf_compare.py: rows are grouped into blocks by the
 * timestep on the header line before them, the blocks of each timestep range are
 * averaged, and the first peak of each plotted pair is located.
 */
module RdfBlocks {
  import opened Wrappers
  import opened Text
  import opened Rdf

  /** One timestep's table, converted to numbers when it is closed. */
  datatype Block = Block(step: int, rows: Matrix)

  /** The loop variables `all_blocks`, `current_block` and `current_step`. */
  datatype Reader = Reader(blocks: seq<Block>, current: seq<seq<string>>, step: Option<int>)

  const Start: Reader := Reader([], [], None)

  function CellReader(toReal: RealParser): string -> Result<real> {
    t => Float(t, toReal)
  }

  function RowReader(toReal: RealParser): seq<string> -> Result<seq<real>> {
    row => MapAll(row, CellReader(toReal))
  }

  /** `np.array(current_block, dtype=float)`: every token converted, or `ValueError`. */
  function ToMatrix(rows: seq<seq<string>>, toReal: RealParser): Result<Matrix> {
    MapAll(rows, RowReader(toReal))
  }

  /** The append guarded by `if current_block and current_step is not None`. */
  function Flush(st: Reader, toReal: RealParser): Result<seq<Block>> {
    if st.current != [] && st.step.Some? then
      match ToMatrix(st.current, toReal)
      case Err(e) => Err(e)
      case Ok(m) => Ok(st.blocks + [Block(st.step.value, m)])
    else Ok(st.blocks)
  }

  /** One pass of the `for line in lines` loop. */
  function ReadLine(st: Reader, line: string, toReal: RealParser): Result<Reader> {
    var parts := Tokens(line);
    if |parts| == 2 then
      match Flush(st, toReal)
      case Err(e) => Err(e)
      case Ok(bs) =>
        match ParseInt(parts[0])
        case None => Err(ValueError)
        case Some(n) => Ok(Reader(bs, [], Some(n)))
    else if |parts| == ColumnCount then Ok(st.(current := st.current + [parts]))
    else Ok(st)
  }

  /** The loop over `ls`, from the state `st`. */
  function ReadFrom(st: Reader, ls: seq<string>, toReal: RealParser): Result<Reader> {
    if ls == [] then Ok(st)
    else
      match ReadFrom(st, ls[..|ls| - 1], toReal)
      case Err(e) => Err(e)
      case Ok(s) => ReadLine(s, ls[|ls| - 1], toReal)
  }

  /** `all_blocks` once the loop and the final flush are done. */
  function ReadBlocks(lines: seq<string>, toReal: RealParser): Result<seq<Block>> {
    match ReadFrom(Start, Body(lines), toReal)
    case Err(e) => Err(e)
    case Ok(st) => Flush(st, toReal)
  }

  /** The block reader of cal_rdf_compare.py, as the script's loop runs it. */
  method ReadRdfBlocks(lines: seq<string>, toReal: RealParser) returns (r: Result<seq<Block>>)
    ensures r == ReadBlocks(lines, toReal)
  {
    var body := Body(lines);
    var allBlocks: seq<Block> := [];
    var currentBlock: seq<seq<string>> := [];
    var currentStep: Option<int> := None;
    for i := 0 to |body|
      invariant ReadFrom(Start, body[..i], toReal) == Ok(Reader(allBlocks, currentBlock, currentStep))
    {
      assert body[..i + 1][..i] == body[..i];
      var parts := Tokens(body[i]);
      if |parts| == 2 {
        if currentBlock != [] && currentStep.Some? {
          var m := ToMatrix(currentBlock, toReal);
          if m.Err? {
            ReadFromErr(body, i + 1, m.error, toReal);
            return Err(m.error);
          }
          allBlocks := allBlocks + [Block(currentStep.value, m.value)];
        }
        var n := ParseInt(parts[0]);
        if n.None? {
          ReadFromErr(body, i + 1, ValueError, toReal);
          return Err(ValueError);
        }
        currentStep := n;
        currentBlock := [];
      } else if |parts| == ColumnCount {
        currentBlock := currentBlock + [parts];
      }
    }
    assert body[..|body|] == body;
    if currentBlock != [] && currentStep.Some? {
      var m := ToMatrix(currentBlock, toReal);
      if m.Err? {
        return Err(m.error);
      }
      allBlocks := allBlocks + [Block(currentStep.value, m.value)];
    }
    r := Ok(allBlocks);
  }

  /** Once the loop has raised, the rest of the lines do not matter. */
  lemma {:induction false} ReadFromErr(ls: seq<string>, k: nat, e: Error, toReal: RealParser)
    requires k <= |ls| && ReadFrom(Start, ls[..k], toReal) == Err(e)
    ensures ReadFrom(Start, ls, toReal) == Err(e)
    decreases |ls| - k
  {
    if k < |ls| {
      assert ls[..k + 1][..k] == ls[..k];
      ReadFromErr(ls, k + 1, e, toReal);
    } else {
      assert ls[..k] == ls;
    }
  }

  /** The loop over `a + b` is the loop over `a` followed by the loop over `b`. */
  lemma {:induction false} ReadFromAppend(st: Reader, a: seq<string>, b: seq<string>, toReal: RealParser)
    ensures ReadFrom(st, a + b, toReal) ==
      match ReadFrom(st, a, toReal)
      case Err(e) => Err(e)
      case Ok(s) => ReadFrom(s, b, toReal)
    decreases |b|
  {
    if b == [] {
      assert a + b == a;
    } else {
      assert (a + b)[..|a + b| - 1] == a + b[..|b| - 1];
      ReadFromAppend(st, a, b[..|b| - 1], toReal);
    }
  }

  /** A recorded block: at least one row, fourteen values per row. */
  predicate WellShaped(b: Block) {
    |b.rows| > 0 && forall i :: 0 <= i < |b.rows| ==> |b.rows[i]| == ColumnCount
  }

  predicate ReaderShaped(st: Reader) {
    (forall k :: 0 <= k < |st.blocks| ==> WellShaped(st.blocks[k])) &&
    forall i :: 0 <= i < |st.current| ==> |st.current[i]| == ColumnCount
  }

  lemma FlushShaped(st: Reader, toReal: RealParser)
    requires ReaderShaped(st) && Flush(st, toReal).Ok?
    ensures forall k :: 0 <= k < |Flush(st, toReal).value| ==> WellShaped(Flush(st, toReal).value[k])
  {
    if st.current != [] && st.step.Some? {
      var m := ToMatrix(st.current, toReal).value;
      MapAllMeaning(st.current, RowReader(toReal));
      forall i | 0 <= i < |m|
        ensures |m[i]| == ColumnCount
      {
        MapAllMeaning(st.current[i], CellReader(toReal));
      }
      assert WellShaped(Block(st.step.value, m));
    }
  }

  lemma {:induction false} ReadFromShaped(ls: seq<string>, toReal: RealParser)
    requires ReadFrom(Start, ls, toReal).Ok?
    ensures ReaderShaped(ReadFrom(Start, ls, toReal).value)
  {
    if ls != [] {
      var prev := ReadFrom(Start, ls[..|ls| - 1], toReal);
      ReadFromShaped(ls[..|ls| - 1], toReal);
      var parts := Tokens(ls[|ls| - 1]);
      if |parts| == 2 {
        FlushShaped(prev.value, toReal);
      }
    }
  }

  /**
   * Empty blocks are never recorded: every block the reader returns has at least one
   * row, and every row has the fourteen columns of a bin line.
   */
  lemma BlocksWellShaped(lines: seq<string>, toReal: RealParser)
    requires ReadBlocks(lines, toReal).Ok?
    ensures forall k :: 0 <= k < |ReadBlocks(lines, toReal).value| ==> WellShaped(ReadBlocks(lines, toReal).value[k])
  {
    ReadFromShaped(Body(lines), toReal);
    FlushShaped(ReadFrom(Start, Body(lines), toReal).value, toReal);
  }

  lemma {:induction false} RowsBeforeHeader(pre: seq<string>, toReal: RealParser)
    requires forall k :: 0 <= k < |pre| ==> !IsMarker(pre[k])
    ensures ReadFrom(Start, pre, toReal).Ok?
    ensures ReadFrom(Start, pre, toReal).value.blocks == []
    ensures ReadFrom(Start, pre, toReal).value.step == None
  {
    if pre != [] {
      RowsBeforeHeader(pre[..|pre| - 1], toReal);
    }
  }

  /**
   * Rows before the first step header are discarded: a prefix without header lines
   * does not change what the loop reads from the first header on.
   */
  lemma RowsBeforeHeaderDiscarded(pre: seq<string>, rest: seq<string>, toReal: RealParser)
    requires forall k :: 0 <= k < |pre| ==> !IsMarker(pre[k])
    requires rest != [] && IsMarker(rest[0])
    ensures ReadFrom(Start, pre + rest, toReal) == ReadFrom(Start, rest, toReal)
  {
    RowsBeforeHeader(pre, toReal);
    var s := ReadFrom(Start, pre, toReal).value;
    ReadFromAppend(Start, pre, rest, toReal);
    assert rest == [rest[0]] + rest[1..];
    ReadFromAppend(s, [rest[0]], rest[1..], toReal);
    ReadFromAppend(Start, [rest[0]], rest[1..], toReal);
    MarkerForgets(s, rest[0], toReal);
  }

  /** A header line read in a state with no block and no step leaves the same state as from the start. */
  lemma MarkerForgets(s: Reader, m: string, toReal: RealParser)
    requires s.blocks == [] && s.step == None && IsMarker(m)
    ensures ReadFrom(s, [m], toReal) == ReadFrom(Start, [m], toReal)
  {
    assert [m][..0] == [];
    assert ReadFrom(s, [m], toReal) == ReadLine(s, m, toReal);
    assert ReadFrom(Start, [m], toReal) == ReadLine(Start, m, toReal);
  }

  /** The token lists of some lines. */
  function TokensOf(ls: seq<string>): (ts: seq<seq<string>>)
    ensures |ts| == |ls|
  {
    seq(|ls|, k requires 0 <= k < |ls| => Tokens(ls[k]))
  }

  lemma {:induction false} ReadBinLines(st: Reader, tail: seq<string>, toReal: RealParser)
    requires forall k :: 0 <= k < |tail| ==> IsBinLine(tail[k])
    ensures ReadFrom(st, tail, toReal) == Ok(st.(current := st.current + TokensOf(tail)))
  {
    if tail == [] {
      assert st.current + [] == st.current;
    } else {
      var n := |tail| - 1;
      ReadBinLines(st, tail[..n], toReal);
      assert TokensOf(tail) == TokensOf(tail[..n]) + [Tokens(tail[n])];
      assert st.current + TokensOf(tail) == (st.current + TokensOf(tail[..n])) + [Tokens(tail[n])];
      assert |Tokens(tail[n])| == ColumnCount;
    }
  }

  /**
   * The last block is flushed: the rows after the final header form the last block,
   * tagged with that header's step.
   */
  lemma LastBlockFlushed(st: Reader, m: string, tail: seq<string>, toReal: RealParser)
    requires IsMarker(m) && ParseInt(Tokens(m)[0]).Some? && Flush(st, toReal).Ok?
    requires tail != [] && forall k :: 0 <= k < |tail| ==> IsBinLine(tail[k])
    requires ToMatrix(TokensOf(tail), toReal).Ok?
    ensures ReadFrom(st, [m] + tail, toReal).Ok?
    ensures Flush(ReadFrom(st, [m] + tail, toReal).value, toReal) ==
      Ok(Flush(st, toReal).value + [Block(ParseInt(Tokens(m)[0]).value, ToMatrix(TokensOf(tail), toReal).value)])
  {
    ReadFromAppend(st, [m], tail, toReal);
    assert [m][..0] == [];
    var s := Reader(Flush(st, toReal).value, [], ParseInt(Tokens(m)[0]));
    assert ReadFrom(st, [m], toReal) == Ok(s);
    ReadBinLines(s, tail, toReal);
    assert [] + TokensOf(tail) == TokensOf(tail);
  }

  // ---------------------------------------------------------------------------
  // Range selection and averaging
  // ---------------------------------------------------------------------------

  /** The blocks whose step lies in `[lo, hi]`, both ends included, in file order. */
  function InRange(blocks: seq<Block>, lo: int, hi: int): seq<Matrix> {
    if blocks == [] then []
    else (if lo <= blocks[0].step <= hi then [blocks[0].rows] else []) + InRange(blocks[1..], lo, hi)
  }

  /** A table is selected exactly when some block in the range carries it. */
  lemma {:induction false} InRangeMeaning(blocks: seq<Block>, lo: int, hi: int)
    ensures forall m :: m in InRange(blocks, lo, hi) <==>
      exists k :: 0 <= k < |blocks| && lo <= blocks[k].step <= hi && blocks[k].rows == m
  {
    if blocks != [] {
      InRangeMeaning(blocks[1..], lo, hi);
      assert forall k :: 1 <= k < |blocks| ==> blocks[1..][k - 1] == blocks[k];
      forall m | exists k :: 0 <= k < |blocks| && lo <= blocks[k].step <= hi && blocks[k].rows == m
        ensures m in InRange(blocks, lo, hi)
      {
        var k :| 0 <= k < |blocks| && lo <= blocks[k].step <= hi && blocks[k].rows == m;
        if k > 0 {
          assert blocks[1..][k - 1] == blocks[k];
        }
      }
    }
  }

  /** `np.stack` needs tables of one shape. */
  predicate SameShape(sel: seq<Matrix>) {
    sel != [] &&
    forall k :: 0 <= k < |sel| ==>
      |sel[k]| == |sel[0]| && forall i :: 0 <= i < |sel[k]| ==> |sel[k][i]| == |sel[0][i]|
  }

  /**
   * `np.stack`, the mean over tables of the six g columns, and r from the first table:
   * `ValueError` when nothing is selected or the shapes differ, `IndexError` when a row
   * is too short for the g columns.
   */
  function RangeAverage(sel: seq<Matrix>): (r: Result<Matrix>)
    ensures r.Ok? ==> SameShape(sel) && |r.value| == |sel[0]|
    ensures r.Ok? ==> forall i :: 0 <= i < |r.value| ==> |r.value[i]| == Width
  {
    if !SameShape(sel) then Err(ValueError)
    else if exists i :: 0 <= i < |sel[0]| && |sel[0][i]| <= 12 then Err(IndexError)
    else Ok(seq(|sel[0]|, i requires 0 <= i < |sel[0]| =>
      [Cell(sel[0], i, 1)] + seq(6, c requires 0 <= c < 6 => Mean(sel, i, GIndices[c]))))
  }

  /** A single selected block is its own average: r and the six g columns, unchanged. */
  lemma AverageOfOneBlock(m: Matrix)
    requires forall i :: 0 <= i < |m| ==> |m[i]| == ColumnCount
    ensures RangeAverage([m]).Ok?
    ensures forall i, c :: 0 <= i < |m| && 0 <= c < Width ==> RangeAverage([m]).value[i][c] == m[i][Picked[c]]
  {
    var avg := RangeAverage([m]);
    assert SameShape([m]);
    forall i, c | 0 <= i < |m| && 1 <= c < Width
      ensures avg.value[i][c] == m[i][Picked[c]]
    {
      assert [m][..0] == [];
      assert SumCell([m], i, GIndices[c - 1]) == m[i][Picked[c]];
    }
  }

  // ---------------------------------------------------------------------------
  // Peak search
  // ---------------------------------------------------------------------------

  /** The factor every g column is divided by before the peak search. */
  const GScale: real := 1.875

  /**
   * `np.argmax(g[valid_indices])` over the first `n` bins, with `valid_indices` the bins
   * where r > 0.5: the first valid bin of largest g, or none when no bin is valid.
   */
  function PeakBin(r: seq<real>, g: seq<real>, n: nat): (p: Option<nat>)
    requires n <= |r| && n <= |g|
    ensures p.Some? ==> p.value < n && r[p.value] > 0.5
    ensures p.Some? ==> forall j :: 0 <= j < n && r[j] > 0.5 ==> g[j] <= g[p.value]
    ensures p.Some? ==> forall j :: 0 <= j < p.value && r[j] > 0.5 ==> g[j] < g[p.value]
    ensures p.None? <==> forall j :: 0 <= j < n ==> r[j] <= 0.5
  {
    if n == 0 then None
    else
      var p := PeakBin(r, g, n - 1);
      if r[n - 1] > 0.5 && (p.None? || g[n - 1] > g[p.value]) then Some(n - 1) else p
  }

  function Column(m: Matrix, c: nat): (col: seq<real>)
    ensures |col| == |m|
  {
    seq(|m|, i requires 0 <= i < |m| => Cell(m, i, c))
  }

  function Scaled(g: seq<real>): (h: seq<real>)
    ensures |h| == |g|
  {
    seq(|g|, i requires 0 <= i < |g| => g[i] / GScale)
  }

  /** Dividing g by 1.875 does not move the peak. */
  lemma {:induction false} PeakIgnoresScale(r: seq<real>, g: seq<real>, n: nat)
    requires n <= |r| && n <= |g|
    ensures PeakBin(r, Scaled(g), n) == PeakBin(r, g, n)
  {
    if n > 0 {
      PeakIgnoresScale(r, g, n - 1);
    }
  }

  datatype Peak = Peak(r: real, g: real)

  /** Lines 98-104 for pair `pair`: r and g/1.875 at the peak, or `ValueError` when no bin has r > 0.5. */
  function PairPeak(avg: Matrix, pair: nat): Result<Peak> {
    var r := Column(avg, 0);
    var g := Scaled(Column(avg, pair + 1));
    match PeakBin(r, g, |avg|)
    case None => Err(ValueError)
    case Some(k) => Ok(Peak(r[k], g[k]))
  }

  // ---------------------------------------------------------------------------
  // The loop over step ranges
  // ---------------------------------------------------------------------------

  const RdfLabels: seq<string> := ["F-F", "F-Be", "F-Li", "Be-Be", "Li-Be", "Li-Li"]
  const PlotLabels: seq<string> := ["F-F", "F-Be", "Li-Li"]

  /** One entry of `peak_data`. */
  datatype PeakRow = PeakRow(lo: int, hi: int, pair: string, r: real, g: real)

  /** The peaks of the plotted pairs from pair `i` on, in pair order. */
  function PairRows(avg: Matrix, lo: int, hi: int, i: nat): Result<seq<PeakRow>>
    decreases |RdfLabels| - i
  {
    if i >= |RdfLabels| then Ok([])
    else if RdfLabels[i] !in PlotLabels then PairRows(avg, lo, hi, i + 1)
    else
      match PairPeak(avg, i)
      case Err(e) => Err(e)
      case Ok(p) => Prefixed([PeakRow(lo, hi, RdfLabels[i], p.r, p.g)], PairRows(avg, lo, hi, i + 1))
  }

  /** The rows one step range adds: none when no block is in range. */
  function RangeRows(blocks: seq<Block>, lo: int, hi: int): Result<seq<PeakRow>> {
    var sel := InRange(blocks, lo, hi);
    if sel == [] then Ok([])
    else
      match RangeAverage(sel)
      case Err(e) => Err(e)
      case Ok(avg) => PairRows(avg, lo, hi, 0)
  }

  /** `peak_data` after the loop over `ranges`. */
  function AllRows(blocks: seq<Block>, ranges: seq<(int, int)>): Result<seq<PeakRow>> {
    if ranges == [] then Ok([])
    else
      match AllRows(blocks, ranges[..|ranges| - 1])
      case Err(e) => Err(e)
      case Ok(rows) =>
        var (lo, hi) := ranges[|ranges| - 1];
        Prefixed(rows, RangeRows(blocks, lo, hi))
  }

  /** The pair of every row, in order. */
  function Pairs(rows: seq<PeakRow>): (ps: seq<string>)
    ensures |ps| == |rows|
  {
    seq(|rows|, k requires 0 <= k < |rows| => rows[k].pair)
  }

  /** The legend entry of each plotted curve: its label the first time it is seen, otherwise none. */
  function Legend(labels: seq<string>): (legend: seq<Option<string>>)
    ensures |legend| == |labels|
  {
    seq(|labels|, k requires 0 <= k < |labels| => if labels[k] in labels[..k] then None else Some(labels[k]))
  }

  /**
   * Every label that is plotted gets a legend entry, and no label gets two.
   */
  lemma {:induction false} LegendOnce(labels: seq<string>)
    ensures forall j, k :: 0 <= j < k < |labels| && Legend(labels)[k].Some? ==> Legend(labels)[j] != Legend(labels)[k]
    ensures forall x :: x in labels ==> Some(x) in Legend(labels)
  {
    if labels != [] {
      var n := |labels| - 1;
      LegendOnce(labels[..n]);
      assert forall k :: 0 <= k < n ==> Legend(labels)[k] == Legend(labels[..n])[k] by {
        forall k | 0 <= k < n
          ensures labels[..k] == labels[..n][..k]
        {
        }
      }
      forall x | x in labels
        ensures Some(x) in Legend(labels)
      {
        if x in labels[..n] {
          var k :| 0 <= k < n && Legend(labels[..n])[k] == Some(x);
          assert Legend(labels)[k] == Some(x);
        } else {
          assert labels[n] == x;
          assert Legend(labels)[n] == Some(x);
        }
      }
    }
  }
  lemma {:induction false} AllRowsErr(blocks: seq<Block>, ranges: seq<(int, int)>, k: nat, e: Error)
    requires k <= |ranges| && AllRows(blocks, ranges[..k]) == Err(e)
    ensures AllRows(blocks, ranges) == Err(e)
    decreases |ranges| - k
  {
    if k < |ranges| {
      assert ranges[..k + 1][..k] == ranges[..k];
      AllRowsErr(blocks, ranges, k + 1, e);
    } else {
      assert ranges[..k] == ranges;
    }
  }

  lemma PairsSnoc(rows: seq<PeakRow>, row: PeakRow)
    ensures Pairs(rows + [row]) == Pairs(rows) + [row.pair]
  {
  }

  lemma LegendSnoc(labels: seq<string>, x: string)
    ensures Legend(labels + [x]) == Legend(labels) + [if x in labels then None else Some(x)]
  {
    var ls := labels + [x];
    assert ls[..|labels|] == labels;
    forall k | 0 <= k < |labels|
      ensures ls[..k] == labels[..k]
    {
    }
  }

  /**
   * The inner loop over pairs for one step range: the peak of each plotted pair appended to
   * `peak_data`, and its legend label decided against the pairs labelled so far.
   */
  method PlotPairs(avg: Matrix, lo: int, hi: int, peakData: seq<PeakRow>, labeledPairs: set<string>, legend: seq<Option<string>>)
    returns (r: Result<seq<PeakRow>>, labeled: set<string>, legend': seq<Option<string>>)
    requires legend == Legend(Pairs(peakData))
    requires forall x :: x in labeledPairs <==> x in Pairs(peakData)
    ensures r == Prefixed(peakData, PairRows(avg, lo, hi, 0))
    ensures r.Ok? ==> legend' == Legend(Pairs(r.value))
    ensures r.Ok? ==> forall x :: x in labeled <==> x in Pairs(r.value)
  {
    var rows := peakData;
    labeled, legend' := labeledPairs, legend;
    ghost var added: seq<PeakRow> := [];
    PrefixedEmpty(PairRows(avg, lo, hi, 0));
    for i := 0 to |RdfLabels|
      invariant rows == peakData + added
      invariant PairRows(avg, lo, hi, 0) == Prefixed(added, PairRows(avg, lo, hi, i))
      invariant legend' == Legend(Pairs(rows))
      invariant forall x :: x in labeled <==> x in Pairs(rows)
    {
      var pair := RdfLabels[i];
      if pair !in PlotLabels {
        continue;
      }
      var p := PairPeak(avg, i);
      if p.Err? {
        return Err(p.error), labeled, legend';
      }
      var row := PeakRow(lo, hi, pair, p.value.r, p.value.g);
      PrefixedSnoc(added, row, PairRows(avg, lo, hi, i + 1));
      PairsSnoc(rows, row);
      LegendSnoc(Pairs(rows), pair);
      rows := rows + [row];
      added := added + [row];
      var legendLabel := if pair !in labeled then Some(pair) else None;
      labeled := labeled + {pair};
      legend' := legend' + [legendLabel];
    }
    assert added + [] == added;
    r := Ok(rows);
  }

  /**
   * The loop over step ranges: the peaks of the plotted pairs of every range that has
   * blocks, and the legend label each plotted curve receives (kept in `labeled_pairs`).
   */
  method CompareRanges(blocks: seq<Block>, ranges: seq<(int, int)>)
    returns (r: Result<seq<PeakRow>>, legend: seq<Option<string>>)
    ensures r == AllRows(blocks, ranges)
    ensures r.Ok? ==> legend == Legend(Pairs(r.value))
  {
    var peakData: seq<PeakRow> := [];
    var labeledPairs: set<string> := {};
    legend := [];
    for idx := 0 to |ranges|
      invariant AllRows(blocks, ranges[..idx]) == Ok(peakData)
      invariant legend == Legend(Pairs(peakData))
      invariant forall x :: x in labeledPairs <==> x in Pairs(peakData)
    {
      assert ranges[..idx + 1][..idx] == ranges[..idx];
      var (lo, hi) := ranges[idx];
      var sel := InRange(blocks, lo, hi);
      if sel == [] {
        assert peakData + [] == peakData;
        continue;
      }
      var avg := RangeAverage(sel);
      if avg.Err? {
        AllRowsErr(blocks, ranges, idx + 1, avg.error);
        return Err(avg.error), legend;
      }
      var next;
      next, labeledPairs, legend := PlotPairs(avg.value, lo, hi, peakData, labeledPairs, legend);
      if next.Err? {
        AllRowsErr(blocks, ranges, idx + 1, next.error);
        return Err(next.error), legend;
      }
      peakData := next.value;
    }
    assert ranges[..|ranges|] == ranges;
    r := Ok(peakData);
  }

}
