/**
 * Radial distribution functions written by a LAMMPS `fix ave/time` of `compute rdf`.
 *
 * The file starts with three header lines; then every frame is a two-token line
 * (timestep, bin count) followed by one fourteen-token line per bin:
 * bin, r, then g(r) and its running coordination number for each of six pairs.
 *
 * Two readers are modelled:
 *  - the strict averager of cal_rdf_final.py and cal_rdf.py, which insists on exactly
 *    `NBins` bin lines per frame and averages r and the six g columns over all frames;
 *  - the block reader of cal_rdf_compare.py, which tolerates stray lines, groups rows
 *    by timestep, averages the blocks of each timestep range and finds the first
 *    peak of each plotted pair.
 */
module Rdf {
  import opened Wrappers
  import opened Text

  /** Bins per frame (`nbins`). */
  const NBins: nat := 100
  /** Tokens on a bin line (`expected_column_count`). */
  const ColumnCount: nat := 14
  /** Token positions of the six g(r) columns (`g_indices`). */
  const GIndices: seq<nat> := [2, 4, 6, 8, 10, 12]
  /** Token positions one bin line contributes to the strict average: r, then the six g columns. */
  const Picked: seq<nat> := [1, 2, 4, 6, 8, 10, 12]
  /** Columns of an averaged table: r and six g values. */
  const Width: nat := 7

  type Matrix = seq<seq<real>>

  /** `readlines()[3:]`: the three LAMMPS header lines are dropped. */
  function Body(lines: seq<string>): seq<string> {
    if |lines| <= 3 then [] else lines[3..]
  }

  /** `line.strip().split()` */
  function Tokens(line: string): seq<string> {
    Words(Strip(line))
  }

  /** A frame (or block) header: timestep and bin count. */
  predicate IsMarker(line: string) {
    |Tokens(line)| == 2
  }

  predicate IsBinLine(line: string) {
    |Tokens(line)| == ColumnCount
  }

  /** `float(toks[j])` for the token positions a bin line is read at. */
  function TokenValue(toks: seq<string>, toReal: RealParser): nat -> Result<real> {
    j => FloatAt(toks, j, toReal)
  }

  /** The seven numbers one bin line adds to the running sums, converted in order. */
  function BinValues(toks: seq<string>, toReal: RealParser): Result<seq<real>> {
    MapAll(Picked, TokenValue(toks, toReal))
  }

  /** The seven values of a bin line, or the error reading it raises. */
  function BinLine(line: string, toReal: RealParser): Result<seq<real>> {
    if IsBinLine(line) then BinValues(Tokens(line), toReal) else Err(ValueError)
  }

  /** A bin line the strict reader accepts: fourteen tokens, and the seven it reads convert. */
  predicate GoodBin(line: string, toReal: RealParser) {
    IsBinLine(line) && forall j :: j in Picked ==> toReal(Tokens(line)[j]).Some?
  }

  // ---------------------------------------------------------------------------
  // The strict averager (cal_rdf_final.py, cal_rdf.py)
  // ---------------------------------------------------------------------------

  /**
   * The `for i in range(nbins)` loop: `n` bin lines of exactly fourteen tokens.
   * Running out of lines is an `IndexError`, a line of another width a `ValueError`.
   */
  function ReadBins(ls: seq<string>, n: nat, toReal: RealParser): (r: Result<Matrix>)
    ensures r.Ok? ==> n <= |ls| && |r.value| == n
  {
    if n == 0 then Ok([])
    else if ls == [] then Err(IndexError)
    else
      match BinLine(ls[0], toReal)
      case Err(e) => Err(e)
      case Ok(row) =>
        match ReadBins(ls[1..], n - 1, toReal)
        case Err(e) => Err(e)
        case Ok(rows) => Ok([row] + rows)
  }

  /**
   * The `while line_idx < len(lines)` loop: each frame is a marker line and `NBins`
   * bin lines; any other line where a marker is due is a `ValueError`.
   */
  function ReadFrames(ls: seq<string>, toReal: RealParser): (r: Result<seq<Matrix>>)
    decreases |ls|
  {
    if ls == [] then Ok([])
    else if !IsMarker(ls[0]) then Err(ValueError)
    else
      match ReadBins(ls[1..], NBins, toReal)
      case Err(e) => Err(e)
      case Ok(frame) =>
        match ReadFrames(ls[1 + NBins..], toReal)
        case Err(e) => Err(e)
        case Ok(rest) => Ok([frame] + rest)
  }

  /** Entry (i, c) of a table, 0 outside it. */
  function Cell(m: Matrix, i: nat, c: nat): real {
    if i < |m| && c < |m[i]| then m[i][c] else 0.0
  }

  /** Sum over tables of entry (i, c). */
  function SumCell(fs: seq<Matrix>, i: nat, c: nat): real {
    if fs == [] then 0.0 else SumCell(fs[..|fs| - 1], i, c) + Cell(fs[|fs| - 1], i, c)
  }

  /** Mean over tables of entry (i, c). */
  function Mean(fs: seq<Matrix>, i: nat, c: nat): real
    requires fs != []
  {
    SumCell(fs, i, c) / (|fs| as real)
  }

  /** `rdf_data /= frame_count`, or `ValueError` when no frame was read. */
  function AverageFrames(fs: seq<Matrix>): (r: Result<Matrix>)
    ensures r.Ok? <==> fs != []
    ensures r.Ok? ==> |r.value| == NBins && forall i :: 0 <= i < NBins ==> |r.value[i]| == Width
  {
    if fs == [] then Err(ValueError)
    else Ok(seq(NBins, i requires 0 <= i < NBins => seq(Width, c requires 0 <= c < Width => Mean(fs, i, c))))
  }

  /** What the strict averager leaves in `rdf_data`, or the error it raises. */
  function FrameAverage(lines: seq<string>, toReal: RealParser): Result<Matrix> {
    match ReadFrames(Body(lines), toReal)
    case Err(e) => Err(e)
    case Ok(fs) => AverageFrames(fs)
  }

  lemma ReadBinsStep(ls: seq<string>, i: nat, n: nat, toReal: RealParser, row: seq<real>)
    requires i < |ls| && n > 0 && BinLine(ls[i], toReal) == Ok(row)
    ensures ReadBins(ls[i..], n, toReal) == Prefixed([row], ReadBins(ls[i + 1..], n - 1, toReal))
  {
    assert ls[i..][0] == ls[i];
    assert ls[i..][1..] == ls[i + 1..];
  }

  lemma ReadBinsFails(ls: seq<string>, i: nat, n: nat, toReal: RealParser, e: Error)
    requires i < |ls| && n > 0
    requires BinLine(ls[i], toReal) == Err(e)
    ensures ReadBins(ls[i..], n, toReal) == Err(e)
  {
    assert ls[i..][0] == ls[i];
  }

  lemma ReadFramesStep(ls: seq<string>, i: nat, toReal: RealParser, frame: Matrix)
    requires i < |ls| && IsMarker(ls[i]) && ReadBins(ls[i + 1..], NBins, toReal) == Ok(frame)
    ensures ReadFrames(ls[i..], toReal) == Prefixed([frame], ReadFrames(ls[i + 1 + NBins..], toReal))
  {
    assert ls[i..][0] == ls[i];
    assert ls[i..][1..] == ls[i + 1..];
    assert ls[i..][1 + NBins..] == ls[i + 1 + NBins..];
  }

  /** The running sums hold, entry by entry, the sum over the frames read so far. */
  ghost predicate HoldsSums(sums: array2<real>, done: seq<Matrix>)
    reads sums
  {
    sums.Length0 == NBins && sums.Length1 == Width &&
    forall i, c :: 0 <= i < NBins && 0 <= c < Width ==> sums[i, c] == SumCell(done, i, c)
  }

  lemma SumCellSnoc(fs: seq<Matrix>, f: Matrix)
    ensures forall i, c :: SumCell(fs + [f], i, c) == SumCell(fs, i, c) + Cell(f, i, c)
  {
    assert (fs + [f])[..|fs|] == fs;
  }

  /**
   * One bin line added into row `b` of the sums, token by token as
   * `rdf_data[i, 0] += float(...)` and the `g_indices` loop do it.
   */
  method AddBin(sums: array2<real>, b: nat, toks: seq<string>, toReal: RealParser)
    returns (r: Result<seq<real>>)
    requires sums.Length0 == NBins && sums.Length1 == Width && b < NBins
    modifies sums
    ensures r == BinValues(toks, toReal)
    ensures r.Ok? ==> |r.value| == Width
    ensures r.Ok? ==> forall i, c :: 0 <= i < NBins && 0 <= c < Width ==>
      sums[i, c] == old(sums[i, c]) + (if i == b then r.value[c] else 0.0)
  {
    ghost var f := TokenValue(toks, toReal);
    var vals: seq<real> := [];
    var c := 0;
    while c < Width
      invariant 0 <= c <= Width && |vals| == c
      invariant MapAll(Picked[..c], f) == Ok(vals)
      invariant forall i, c' :: 0 <= i < NBins && 0 <= c' < Width && i != b ==> sums[i, c'] == old(sums[i, c'])
      invariant forall c' :: 0 <= c' < Width ==> sums[b, c'] == old(sums[b, c']) + (if c' < c then vals[c'] else 0.0)
    {
      assert Picked[..c + 1][..c] == Picked[..c];
      var j := Picked[c];
      var v := FloatAt(toks, j, toReal);
      if v.Err? {
        MapAllErr(Picked, f, c + 1, v.error);
        return Err(v.error);
      }
      sums[b, c] := sums[b, c] + v.value;
      vals := vals + [v.value];
      c := c + 1;
    }
    assert Picked[..Width] == Picked;
    r := Ok(vals);
  }

  /** Appending a row adds its entries to that row's cells and leaves the others. */
  lemma CellSnoc(rows: Matrix, row: seq<real>)
    requires |row| == Width
    ensures forall k, c :: 0 <= k && 0 <= c < Width ==>
      Cell(rows + [row], k, c) == Cell(rows, k, c) + (if k == |rows| then row[c] else 0.0)
  {
    forall k, c | 0 <= k && 0 <= c < Width
      ensures Cell(rows + [row], k, c) == Cell(rows, k, c) + (if k == |rows| then row[c] else 0.0)
    {
      if k < |rows| {
        assert (rows + [row])[k] == rows[k];
      }
    }
  }

  /** One bin line: its shape checked, then its values added into row `b` of the sums. */
  method AddLine(sums: array2<real>, b: nat, line: string, toReal: RealParser) returns (r: Result<seq<real>>)
    requires sums.Length0 == NBins && sums.Length1 == Width && b < NBins
    modifies sums
    ensures r == BinLine(line, toReal)
    ensures r.Ok? ==> |r.value| == Width
    ensures r.Ok? ==> forall i, c :: 0 <= i < NBins && 0 <= c < Width ==>
      sums[i, c] == old(sums[i, c]) + (if i == b then r.value[c] else 0.0)
  {
    var toks := Tokens(line);
    if |toks| != ColumnCount {
      return Err(ValueError);
    }
    r := AddBin(sums, b, toks, toReal);
  }

  /** The rows read so far are the start of what the bin loop reads from `ls`. */
  ghost predicate BinsSoFar(ls: seq<string>, toReal: RealParser, rows: Matrix) {
    |rows| <= NBins && |rows| <= |ls| &&
    ReadBins(ls, NBins, toReal) == Prefixed(rows, ReadBins(ls[|rows|..], NBins - |rows|, toReal))
  }

  /** One pass of the bin loop: the next line read and added into the sums, or the error it raises. */
  method AddNextBin(sums: array2<real>, ls: seq<string>, rows: Matrix, toReal: RealParser) returns (row: Result<seq<real>>)
    requires sums.Length0 == NBins && sums.Length1 == Width
    requires |rows| < NBins && BinsSoFar(ls, toReal, rows)
    modifies sums
    ensures row.Err? ==> ReadBins(ls, NBins, toReal) == Err(row.error)
    ensures row.Ok? ==> |row.value| == Width && BinsSoFar(ls, toReal, rows + [row.value])
    ensures row.Ok? ==> forall k, c :: 0 <= k < NBins && 0 <= c < Width ==>
      sums[k, c] == old(sums[k, c]) + (if k == |rows| then row.value[c] else 0.0)
  {
    var i := |rows|;
    if i >= |ls| {
      assert ls[i..] == [];
      return Err(IndexError);
    }
    row := AddLine(sums, i, ls[i], toReal);
    if row.Err? {
      ReadBinsFails(ls, i, NBins - i, toReal, row.error);
      return;
    }
    ReadBinsStep(ls, i, NBins - i, toReal, row.value);
    PrefixedSnoc(rows, row.value, ReadBins(ls[i + 1..], NBins - i - 1, toReal));
  }

  /** The bin loop of one frame: `NBins` lines added into the sums. */
  method AddFrame(sums: array2<real>, ls: seq<string>, toReal: RealParser) returns (r: Result<Matrix>)
    requires sums.Length0 == NBins && sums.Length1 == Width
    modifies sums
    ensures r == ReadBins(ls, NBins, toReal)
    ensures r.Ok? ==>
      forall i, c :: 0 <= i < NBins && 0 <= c < Width ==> sums[i, c] == old(sums[i, c]) + Cell(r.value, i, c)
  {
    var rows: Matrix := [];
    assert ls[0..] == ls;
    PrefixedEmpty(ReadBins(ls, NBins, toReal));
    while |rows| < NBins
      invariant BinsSoFar(ls, toReal, rows)
      invariant forall k, c :: 0 <= k < NBins && 0 <= c < Width ==> sums[k, c] == old(sums[k, c]) + Cell(rows, k, c)
      decreases NBins - |rows|
    {
      var row := AddNextBin(sums, ls, rows, toReal);
      if row.Err? {
        return Err(row.error);
      }
      CellSnoc(rows, row.value);
      rows := rows + [row.value];
    }
    assert rows + [] == rows;
    r := Ok(rows);
  }

  /**
   * The reading loop and the final division of the strict averager: a running sum
   * per bin in an `NBins` × 7 array, frame by frame, divided by the frame count.
   */
  method AverageRdf(lines: seq<string>, toReal: RealParser) returns (r: Result<Matrix>)
    ensures r == FrameAverage(lines, toReal)
  {
    var body := Body(lines);
    var sums := new real[NBins, Width]((i, c) => 0.0);
    var frameCount: nat := 0;
    ghost var done: seq<Matrix> := [];
    var idx := 0;
    assert body[0..] == body;
    PrefixedEmpty(ReadFrames(body, toReal));
    while idx < |body|
      invariant idx <= |body| && frameCount == |done|
      invariant ReadFrames(body, toReal) == Prefixed(done, ReadFrames(body[idx..], toReal))
      invariant HoldsSums(sums, done)
      decreases |body| - idx
    {
      if !IsMarker(body[idx]) {
        return Err(ValueError);
      }
      frameCount := frameCount + 1;
      assert body[idx..][0] == body[idx];
      assert body[idx..][1..] == body[idx + 1..];
      var frame := AddFrame(sums, body[idx + 1..], toReal);
      if frame.Err? {
        return Err(frame.error);
      }
      ReadFramesStep(body, idx, toReal, frame.value);
      PrefixedSnoc(done, frame.value, ReadFrames(body[idx + 1 + NBins..], toReal));
      SumCellSnoc(done, frame.value);
      done := done + [frame.value];
      idx := idx + 1 + NBins;
    }
    assert body[idx..] == [] && done + [] == done;
    if frameCount == 0 {
      return Err(ValueError);
    }
    var average := seq(NBins, i requires 0 <= i < NBins reads sums =>
      seq(Width, c requires 0 <= c < Width reads sums => sums[i, c] / (frameCount as real)));
    ghost var expected := AverageFrames(done).value;
    assert forall i :: 0 <= i < NBins ==> average[i] == expected[i];
    assert average == expected;
    r := Ok(average);
  }

  /** Number of marker lines. */
  function CountMarkers(ls: seq<string>): nat {
    if ls == [] then 0 else (if IsMarker(ls[0]) then 1 else 0) + CountMarkers(ls[1..])
  }

  lemma {:induction false} SkipBinLines(ls: seq<string>, n: nat)
    requires n <= |ls| && forall k :: 0 <= k < n ==> IsBinLine(ls[k])
    ensures CountMarkers(ls) == CountMarkers(ls[n..])
  {
    if n > 0 {
      assert ls[1..][n - 1..] == ls[n..];
      SkipBinLines(ls[1..], n - 1);
    }
  }

  /** The bin loop succeeds exactly when `n` lines are there and each is a good bin line. */
  lemma {:induction false} ReadBinsOk(ls: seq<string>, n: nat, toReal: RealParser)
    ensures ReadBins(ls, n, toReal).Ok? <==>
      n <= |ls| && forall k :: 0 <= k < n ==> GoodBin(ls[k], toReal)
    ensures ReadBins(ls, n, toReal) == Err(IndexError) <==>
      |ls| < n && forall k :: 0 <= k < |ls| ==> GoodBin(ls[k], toReal)
  {
    if n > 0 && ls != [] {
      ReadBinsOk(ls[1..], n - 1, toReal);
      if IsBinLine(ls[0]) {
        BinValuesOk(Tokens(ls[0]), toReal);
      }
      assert forall k :: 1 <= k < |ls| ==> ls[1..][k - 1] == ls[k];
    }
  }

  /** The seven conversions of a bin line succeed exactly when each read token converts. */
  lemma BinValuesOk(toks: seq<string>, toReal: RealParser)
    requires |toks| == ColumnCount
    ensures BinValues(toks, toReal).Ok? <==> forall j :: j in Picked ==> toReal(toks[j]).Some?
    ensures BinValues(toks, toReal).Err? ==> BinValues(toks, toReal).error == ValueError
  {
    var f := TokenValue(toks, toReal);
    MapAllMeaning(Picked, f);
    assert forall j :: j in Picked <==> exists k :: 0 <= k < |Picked| && Picked[k] == j;
  }

  /**
   * frame_count counts the markers: on success there is one frame per marker line,
   * and the body is exactly that many frames of `NBins + 1` lines.
   */
  lemma {:induction false} FrameCountIsMarkers(ls: seq<string>, toReal: RealParser)
    requires ReadFrames(ls, toReal).Ok?
    ensures |ReadFrames(ls, toReal).value| == CountMarkers(ls)
    ensures |ls| == |ReadFrames(ls, toReal).value| * (NBins + 1)
    decreases |ls|
  {
    if ls != [] {
      var frame := ReadBins(ls[1..], NBins, toReal);
      ReadBinsOk(ls[1..], NBins, toReal);
      SkipBinLines(ls[1..], NBins);
      assert ls[1..][NBins..] == ls[1 + NBins..];
      FrameCountIsMarkers(ls[1 + NBins..], toReal);
    }
  }

  /** The error paths of the strict averager. */
  lemma FrameAverageErrors(lines: seq<string>, toReal: RealParser)
    ensures |lines| <= 3 ==> FrameAverage(lines, toReal) == Err(ValueError)
    ensures |lines| > 3 && !IsMarker(lines[3]) ==> FrameAverage(lines, toReal) == Err(ValueError)
    ensures (|lines| > 3 && IsMarker(lines[3]) && |lines| <= 4 + NBins - 1 &&
             forall k :: 4 <= k < |lines| ==> GoodBin(lines[k], toReal)) ==>
      FrameAverage(lines, toReal) == Err(IndexError)
  {
    if |lines| > 3 && IsMarker(lines[3]) && |lines| <= 4 + NBins - 1 {
      var body := Body(lines);
      assert body[0] == lines[3];
      ReadBinsOk(body[1..], NBins, toReal);
      assert forall k :: 0 <= k < |body[1..]| ==> body[1..][k] == lines[k + 4];
    }
  }

  lemma {:induction false} SumCellConstant(fs: seq<Matrix>, f: Matrix, i: nat, c: nat)
    requires forall k :: 0 <= k < |fs| ==> fs[k] == f
    ensures SumCell(fs, i, c) == (|fs| as real) * Cell(f, i, c)
  {
    if fs != [] {
      SumCellConstant(fs[..|fs| - 1], f, i, c);
    }
  }

  /** Averaging frames that are all the same table gives that table back: a mean, not a sum. */
  lemma AverageOfEqualFrames(fs: seq<Matrix>, f: Matrix)
    requires fs != [] && forall k :: 0 <= k < |fs| ==> fs[k] == f
    requires |f| == NBins && forall i :: 0 <= i < NBins ==> |f[i]| == Width
    ensures AverageFrames(fs) == Ok(f)
  {
    var avg := AverageFrames(fs).value;
    forall i | 0 <= i < NBins
      ensures avg[i] == f[i]
    {
      forall c | 0 <= c < Width
        ensures avg[i][c] == f[i][c]
      {
        SumCellConstant(fs, f, i, c);
        var n := |fs| as real;
        assert Cell(f, i, c) == f[i][c];
        assert avg[i][c] == (n * f[i][c]) / n;
      }
      assert |avg[i]| == |f[i]|;
    }
    assert |avg| == |f|;
    assert avg == f;
  }

}
