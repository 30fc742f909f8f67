/**
 * Readers of the thermo tables in LAMMPS log files, and the small decisions the
 * plotting scripts take on what they read.
 *
 * Five scripts read the table the same way: after dropping `header_skip` lines, a
 * line is a data row when it has enough tokens and its first token is all digits;
 * the step is `int(token 0)` and chosen columns are converted with `float()` in
 * order. They differ in the column choice, in which exceptions the `try` block
 * catches and in whether values are appended one by one (so that a failure part-way
 * leaves the earlier lists longer) or only once the whole row has converted. A
 * `Layout` records those choices; one parser serves all five.
 */
module Thermo {
  import opened Wrappers
  import opened Text

  /**
   * What distinguishes one script's parser: the least token count of a data row,
   * the columns read after the step, whether `IndexError` is caught besides
   * `ValueError`, and whether the row is appended only when every value converted.
   */
  datatype Layout = Layout(minTokens: nat, cols: seq<nat>, catchIndex: bool, atomic: bool)

  /** plot_lammps_evo_good_work_now.py: Temp, Press, Volume, Density, PotEng, KinEng, TotEng. */
  const EvoLayout := Layout(8, [1, 2, 3, 4, 5, 6, 7], false, false)
  /** plot_dens_vs_temp_multi.py: Temp and Density. */
  const DensTempLayout := Layout(5, [1, 4], false, false)
  /** plot_lammps_evolution.py: Temp, Press, Volume, Density. */
  const EvolutionLayout := Layout(1, [1, 2, 3, 4], false, false)
  /** plot_lammps_evolution_Pot_Kin_Tot.py: PotEng, KinEng, TotEng. */
  const EnergyLayout := Layout(1, [5, 6, 7], true, false)
  /** cal_time_evol_Density.py: Temp, Press, Volume, Density, converted before any append. */
  const DensityLayout := Layout(1, [1, 2, 3, 4], false, true)

  /** cal_time_evol_Density.py drops this many header lines. */
  const DensityHeaderLines := 212

  /** The lists a parser returns: the steps and one list per column of its layout. */
  datatype Table = Table(steps: seq<int>, values: seq<seq<real>>)

  /** `lines[k:]`, including Python's counting from the end for a negative `k`. */
  function PyDrop<T>(xs: seq<T>, k: int): (r: seq<T>)
    ensures 0 <= k ==> r == xs[(if k < |xs| then k else |xs|)..]
    ensures k < 0 ==> r == xs[(if -k < |xs| then |xs| + k else 0)..]
  {
    if 0 <= k then (if k < |xs| then xs[k..] else [])
    else if -k < |xs| then xs[|xs| + k..] else xs
  }

  /** A data row: `parts` non-empty, long enough, and its first token all digits. */
  predicate Accepted(parts: seq<string>, layout: Layout) {
    |parts| > 0 && |parts| >= layout.minTokens && IsDigits(parts[0])
  }

  /** The exceptions the script's `except` clause names. */
  predicate Caught(e: Error, layout: Layout) {
    e == ValueError || (e == IndexError && layout.catchIndex)
  }

  /** `float(parts[c])` for each column in turn, up to the first failure: the values read and that failure. */
  function Fields(parts: seq<string>, cols: seq<nat>, toReal: RealParser): (r: (seq<real>, Option<Error>))
    ensures |r.0| <= |cols| && (r.1.None? <==> |r.0| == |cols|)
  {
    if cols == [] then ([], None)
    else
      match FloatAt(parts, cols[0], toReal)
      case Err(e) => ([], Some(e))
      case Ok(v) =>
        var rest := Fields(parts, cols[1..], toReal);
        ([v] + rest.0, rest.1)
  }

  /** Value k is column k converted, and the failure, if any, is that of the first column not read. */
  lemma {:induction false} FieldsMeaning(parts: seq<string>, cols: seq<nat>, toReal: RealParser)
    ensures var (vs, err) := Fields(parts, cols, toReal);
      (forall k :: 0 <= k < |vs| ==> FloatAt(parts, cols[k], toReal) == Ok(vs[k])) &&
      (err.Some? ==> FloatAt(parts, cols[|vs|], toReal) == Err(err.value))
  {
    if cols != [] && FloatAt(parts, cols[0], toReal).Ok? {
      FieldsMeaning(parts, cols[1..], toReal);
    }
  }

  /** The first `|vs|` lists each get one more value. */
  function Extend(values: seq<seq<real>>, vs: seq<real>): (r: seq<seq<real>>)
    requires |vs| <= |values|
    ensures |r| == |values|
  {
    seq(|values|, c requires 0 <= c < |values| => if c < |vs| then values[c] + [vs[c]] else values[c])
  }

  /** One pass of the line loop of `parse_log_lammps`. */
  function AddLine(t: Table, line: string, layout: Layout, toReal: RealParser): (r: Result<Table>)
    requires |t.values| == |layout.cols|
    ensures r.Ok? ==> |r.value.values| == |layout.cols|
  {
    var parts := Words(Strip(line));
    if !Accepted(parts, layout) then Ok(t)
    else
      match ParseInt(parts[0])
      case None => Ok(t)
      case Some(step) =>
        var (vs, err) := Fields(parts, layout.cols, toReal);
        if err.Some? && !Caught(err.value, layout) then Err(err.value)
        else if layout.atomic && err.Some? then Ok(t)
        else Ok(Table(t.steps + [step], Extend(t.values, vs)))
  }

  function EmptyTable(n: nat): (t: Table)
    ensures |t.values| == n
  {
    Table([], seq(n, c => []))
  }

  /** The table read from `lines`, or the first exception the `try` block lets through. */
  function ParseTable(lines: seq<string>, layout: Layout, toReal: RealParser): (r: Result<Table>)
    ensures r.Ok? ==> |r.value.values| == |layout.cols|
  {
    if lines == [] then Ok(EmptyTable(|layout.cols|))
    else
      match ParseTable(lines[..|lines| - 1], layout, toReal)
      case Err(e) => Err(e)
      case Ok(t) => AddLine(t, lines[|lines| - 1], layout, toReal)
  }

  /** `parse_log_lammps(path, header_skip)` on the lines of the file. */
  function ParseLog(lines: seq<string>, headerSkip: int, layout: Layout, toReal: RealParser): Result<Table> {
    ParseTable(PyDrop(lines, headerSkip), layout, toReal)
  }

  lemma {:induction false} ParseTableErr(lines: seq<string>, k: nat, e: Error, layout: Layout, toReal: RealParser)
    requires k <= |lines| && ParseTable(lines[..k], layout, toReal) == Err(e)
    ensures ParseTable(lines, layout, toReal) == Err(e)
    decreases |lines| - k
  {
    if k < |lines| {
      assert lines[..k + 1][..k] == lines[..k];
      ParseTableErr(lines, k + 1, e, layout, toReal);
    } else {
      assert lines[..k] == lines;
    }
  }

  /** The conversions of the `try` block, one column after another. */
  method ReadFields(parts: seq<string>, cols: seq<nat>, toReal: RealParser) returns (vs: seq<real>, err: Option<Error>)
    ensures (vs, err) == Fields(parts, cols, toReal)
  {
    vs := [];
    err := None;
    var c := 0;
    assert cols[c..] == cols;
    assert vs + Fields(parts, cols, toReal).0 == Fields(parts, cols, toReal).0;
    while c < |cols|
      invariant c <= |cols|
      invariant Fields(parts, cols, toReal) == (vs + Fields(parts, cols[c..], toReal).0, Fields(parts, cols[c..], toReal).1)
    {
      assert cols[c..][0] == cols[c];
      var v := FloatAt(parts, cols[c], toReal);
      if v.Err? {
        assert vs + [] == vs;
        return vs, Some(v.error);
      }
      assert cols[c..][1..] == cols[c + 1..];
      assert vs + ([v.value] + Fields(parts, cols[c + 1..], toReal).0) == (vs + [v.value]) + Fields(parts, cols[c + 1..], toReal).0;
      vs := vs + [v.value];
      c := c + 1;
    }
    assert vs + [] == vs;
  }

  /** `parse_log_lammps` of the five table readers, each with its own layout. */
  method ReadThermoTable(lines: seq<string>, headerSkip: int, layout: Layout, toReal: RealParser) returns (r: Result<Table>)
    ensures r == ParseLog(lines, headerSkip, layout, toReal)
  {
    var body := PyDrop(lines, headerSkip);
    var steps: seq<int> := [];
    var values: seq<seq<real>> := seq(|layout.cols|, c => []);
    for i := 0 to |body|
      invariant |values| == |layout.cols|
      invariant ParseTable(body[..i], layout, toReal) == Ok(Table(steps, values))
    {
      assert body[..i + 1][..i] == body[..i];
      var parts := Words(Strip(body[i]));
      if !Accepted(parts, layout) {
        continue;
      }
      var step := ParseInt(parts[0]);
      if step.None? {
        continue;
      }
      var vs, err := ReadFields(parts, layout.cols, toReal);
      if err.Some? && !Caught(err.value, layout) {
        ParseTableErr(body, i + 1, err.value, layout, toReal);
        return Err(err.value);
      }
      if layout.atomic && err.Some? {
        continue;
      }
      steps := steps + [step.value];
      values := Extend(values, vs);
    }
    assert body[..|body|] == body;
    r := Ok(Table(steps, values));
  }

  // ---------------------------------------------------------------------------
  // What the parsed lists look like
  // ---------------------------------------------------------------------------

  /** Lists that only ever grow front to back: no column is longer than the steps or than the column before it. */
  predicate Staggered(t: Table) {
    (forall c :: 0 <= c < |t.values| ==> |t.values[c]| <= |t.steps|) &&
    (forall c :: 0 < c < |t.values| ==> |t.values[c]| <= |t.values[c - 1]|)
  }

  predicate Aligned(t: Table) {
    forall c :: 0 <= c < |t.values| ==> |t.values[c]| == |t.steps|
  }

  /**
   * Appending values column by column keeps the lists staggered; when the row is
   * appended only after every value converted, they stay aligned.
   */
  lemma {:induction false} ParseTableShape(lines: seq<string>, layout: Layout, toReal: RealParser)
    requires ParseTable(lines, layout, toReal).Ok?
    ensures Staggered(ParseTable(lines, layout, toReal).value)
    ensures layout.atomic ==> Aligned(ParseTable(lines, layout, toReal).value)
  {
    if lines != [] {
      ParseTableShape(lines[..|lines| - 1], layout, toReal);
    }
  }

  /** A line that is not a data row changes nothing. */
  lemma SkippedLine(lines: seq<string>, line: string, layout: Layout, toReal: RealParser)
    requires !Accepted(Words(Strip(line)), layout)
    ensures ParseTable(lines + [line], layout, toReal) == ParseTable(lines, layout, toReal)
  {
    assert (lines + [line])[..|lines|] == lines;
  }

  /** An accepted data row always has a step: its first token is all digits. */
  lemma AcceptedHasStep(parts: seq<string>, layout: Layout)
    requires Accepted(parts, layout)
    ensures ParseInt(parts[0]) == Some(DigitsValue(parts[0]))
  {
    StripNoSpace(parts[0]);
    assert Strip(parts[0]) == parts[0];
  }

  /**
   * A `ValueError` part-way through a row, in a parser that appends one by one:
   * the steps and the columns before the failing one get a value, the rest do not.
   * From aligned lists, the columns from the failing one on end up one short.
   */
  lemma PartialRow(lines: seq<string>, line: string, layout: Layout, toReal: RealParser)
    requires ParseTable(lines, layout, toReal).Ok? && !layout.atomic
    requires Accepted(Words(Strip(line)), layout)
    requires Fields(Words(Strip(line)), layout.cols, toReal).1 == Some(ValueError)
    ensures var t := ParseTable(lines, layout, toReal).value;
      var k := |Fields(Words(Strip(line)), layout.cols, toReal).0|;
      var t' := ParseTable(lines + [line], layout, toReal);
      t'.Ok? && |t'.value.steps| == |t.steps| + 1 &&
      (forall c :: 0 <= c < |layout.cols| ==> |t'.value.values[c]| == |t.values[c]| + (if c < k then 1 else 0)) &&
      (Aligned(t) ==> forall c :: k <= c < |layout.cols| ==> |t'.value.values[c]| == |t'.value.steps| - 1)
  {
    assert (lines + [line])[..|lines|] == lines;
    AcceptedHasStep(Words(Strip(line)), layout);
  }

  /** With increasing columns and convertible tokens, the conversions stop exactly at the first column past the end of the row. */
  lemma {:induction false} FieldsOfShortRow(parts: seq<string>, cols: seq<nat>, toReal: RealParser)
    requires forall j :: 0 <= j < |parts| ==> toReal(parts[j]).Some?
    requires forall k :: 0 < k < |cols| ==> cols[k - 1] < cols[k]
    ensures var (vs, err) := Fields(parts, cols, toReal);
      (forall k :: 0 <= k < |vs| ==> cols[k] < |parts|) &&
      (|vs| < |cols| ==> cols[|vs|] >= |parts| && err == Some(IndexError))
  {
    if cols != [] && cols[0] < |parts| {
      FieldsOfShortRow(parts, cols[1..], toReal);
    }
  }

  /**
   * A data row too short for the layout's columns, whose tokens all convert: where
   * `IndexError` is not caught the parse stops there; where it is caught (and values
   * are appended one by one) the steps and exactly the columns present grow.
   */
  lemma ShortRow(lines: seq<string>, line: string, layout: Layout, toReal: RealParser)
    requires ParseTable(lines, layout, toReal).Ok?
    requires Accepted(Words(Strip(line)), layout)
    requires forall j :: 0 <= j < |Words(Strip(line))| ==> toReal(Words(Strip(line))[j]).Some?
    requires forall k :: 0 < k < |layout.cols| ==> layout.cols[k - 1] < layout.cols[k]
    requires |layout.cols| > 0 && layout.cols[|layout.cols| - 1] >= |Words(Strip(line))|
    ensures !layout.catchIndex ==> ParseTable(lines + [line], layout, toReal) == Err(IndexError)
    ensures layout.catchIndex && !layout.atomic ==>
      var t := ParseTable(lines, layout, toReal).value;
      var t' := ParseTable(lines + [line], layout, toReal);
      t'.Ok? && |t'.value.steps| == |t.steps| + 1 &&
      forall c :: 0 <= c < |layout.cols| ==>
        (|t'.value.values[c]| == |t.values[c]| + 1 <==> layout.cols[c] < |Words(Strip(line))|)
  {
    var parts := Words(Strip(line));
    assert (lines + [line])[..|lines|] == lines;
    AcceptedHasStep(parts, layout);
    FieldsOfShortRow(parts, layout.cols, toReal);
    var (vs, err) := Fields(parts, layout.cols, toReal);
    if layout.catchIndex && !layout.atomic {
      forall c | |vs| <= c < |layout.cols|
        ensures layout.cols[c] >= |parts|
      {
        StrictlyIncreasingFrom(layout.cols, |vs|, c);
      }
    }
  }

  lemma {:induction false} StrictlyIncreasingFrom(cols: seq<nat>, a: nat, b: nat)
    requires forall k :: 0 < k < |cols| ==> cols[k - 1] < cols[k]
    requires a <= b < |cols|
    ensures cols[a] <= cols[b]
    decreases b - a
  {
    if a < b {
      StrictlyIncreasingFrom(cols, a, b - 1);
    }
  }

  // ---------------------------------------------------------------------------
  // The same table, read row by row
  // ---------------------------------------------------------------------------

  /** A fully converted data row. */
  datatype Row = Row(step: int, vals: seq<real>)

  /** What one line contributes when rows are taken whole: nothing, a row, or an uncaught exception. */
  function RowOf(line: string, layout: Layout, toReal: RealParser): (r: Result<Option<Row>>)
    ensures r.Ok? && r.value.Some? ==> |r.value.value.vals| == |layout.cols|
  {
    var parts := Words(Strip(line));
    if !Accepted(parts, layout) then Ok(None)
    else
      match ParseInt(parts[0])
      case None => Ok(None)
      case Some(step) =>
        var (vs, err) := Fields(parts, layout.cols, toReal);
        if err.Some? && !Caught(err.value, layout) then Err(err.value)
        else if err.Some? then Ok(None)
        else Ok(Some(Row(step, vs)))
  }

  function Rows(lines: seq<string>, layout: Layout, toReal: RealParser): (r: Result<seq<Row>>)
    ensures r.Ok? ==> forall k :: 0 <= k < |r.value| ==> |r.value[k].vals| == |layout.cols|
  {
    if lines == [] then Ok([])
    else
      match Rows(lines[..|lines| - 1], layout, toReal)
      case Err(e) => Err(e)
      case Ok(rows) =>
        match RowOf(lines[|lines| - 1], layout, toReal)
        case Err(e) => Err(e)
        case Ok(None) => Ok(rows)
        case Ok(Some(row)) => Ok(rows + [row])
  }

  /** Rows turned into the per-column lists the scripts return. */
  function ToColumns(rows: seq<Row>, n: nat): (t: Table)
    requires forall k :: 0 <= k < |rows| ==> |rows[k].vals| == n
  {
    Table(seq(|rows|, k requires 0 <= k < |rows| => rows[k].step),
          seq(n, c requires 0 <= c < n => seq(|rows|, k requires 0 <= k < |rows| => rows[k].vals[c])))
  }

  /** No data row fails part-way with a caught exception. */
  predicate NoPartialRows(lines: seq<string>, layout: Layout, toReal: RealParser) {
    forall i :: 0 <= i < |lines| && Accepted(Words(Strip(lines[i])), layout) ==>
      var f := Fields(Words(Strip(lines[i])), layout.cols, toReal);
      f.1.None? || !Caught(f.1.value, layout)
  }

  lemma ToColumnsSnoc(rows: seq<Row>, row: Row, n: nat)
    requires forall k :: 0 <= k < |rows| ==> |rows[k].vals| == n
    requires |row.vals| == n
    ensures ToColumns(rows + [row], n) ==
      Table(ToColumns(rows, n).steps + [row.step], Extend(ToColumns(rows, n).values, row.vals))
  {
    var a := ToColumns(rows + [row], n);
    var b := Table(ToColumns(rows, n).steps + [row.step], Extend(ToColumns(rows, n).values, row.vals));
    assert a.steps == b.steps;
    forall c | 0 <= c < n
      ensures a.values[c] == b.values[c]
    {
      assert |a.values[c]| == |b.values[c]|;
    }
    assert a.values == b.values;
  }

  /**
   * Where rows are appended whole, or no data row fails part-way, the column lists
   * are exactly the rows read one by one: row k's step and values sit at index k of
   * every list.
   */
  lemma {:induction false} ParseTableIsRows(lines: seq<string>, layout: Layout, toReal: RealParser)
    requires layout.atomic || NoPartialRows(lines, layout, toReal)
    ensures ParseTable(lines, layout, toReal).Ok? <==> Rows(lines, layout, toReal).Ok?
    ensures ParseTable(lines, layout, toReal).Err? ==>
      ParseTable(lines, layout, toReal).error == Rows(lines, layout, toReal).error
    ensures ParseTable(lines, layout, toReal).Ok? ==>
      ParseTable(lines, layout, toReal).value == ToColumns(Rows(lines, layout, toReal).value, |layout.cols|)
  {
    var n := |layout.cols|;
    if lines == [] {
      assert ToColumns([], n) == EmptyTable(n);
    } else {
      var init := lines[..|lines| - 1];
      var line := lines[|lines| - 1];
      assert forall i :: 0 <= i < |init| ==> init[i] == lines[i];
      ParseTableIsRows(init, layout, toReal);
      if ParseTable(init, layout, toReal).Ok? {
        var rows := Rows(init, layout, toReal).value;
        var parts := Words(Strip(line));
        if Accepted(parts, layout) && ParseInt(parts[0]).Some? {
          var (vs, err) := Fields(parts, layout.cols, toReal);
          if err.None? {
            ToColumnsSnoc(rows, Row(ParseInt(parts[0]).value, vs), n);
          } else {
            assert Caught(err.value, layout) ==> layout.atomic;
          }
        }
      }
    }
  }

  // ---------------------------------------------------------------------------
  // Decisions of the plotting scripts
  // ---------------------------------------------------------------------------

  /** The x axis: `steps * dt` with `--ps` (and always in the time plots), otherwise the steps. */
  function XAxis(steps: seq<int>, ps: bool, dt: real): (x: seq<real>)
    ensures |x| == |steps|
  {
    seq(|steps|, k requires 0 <= k < |steps| => if ps then steps[k] as real * dt else steps[k] as real)
  }

  /** A positive timestep keeps the order of the steps, and without `--ps` the axis is the steps. */
  lemma XAxisOrder(steps: seq<int>, ps: bool, dt: real)
    requires dt > 0.0 || !ps
    ensures forall j, k :: 0 <= j < k < |steps| && steps[j] <= steps[k] ==> XAxis(steps, ps, dt)[j] <= XAxis(steps, ps, dt)[k]
    ensures !ps ==> forall k :: 0 <= k < |steps| ==> XAxis(steps, ps, dt)[k] == steps[k] as real
  {
    forall j, k | 0 <= j < k < |steps| && steps[j] <= steps[k]
      ensures XAxis(steps, ps, dt)[j] <= XAxis(steps, ps, dt)[k]
    {
      if ps {
        MulMonotone(steps[j] as real, steps[k] as real, dt);
      }
    }
  }

  lemma MulMonotone(a: real, b: real, d: real)
    requires a <= b && d > 0.0
    ensures a * d <= b * d
  {
  }

  /** Every quantity plot_lammps_evo_good_work_now.py can draw, in its default order. */
  const AllKeys: seq<string> := ["temp", "press", "vol", "dens", "pe", "ke", "etot"]

  /** `args.appear if args.appear else all_keys` */
  function KeysToPlot(appear: Option<seq<string>>): (keys: seq<string>)
    ensures appear.None? ==> keys == AllKeys
    ensures appear.Some? && appear.value != [] ==> keys == appear.value
  {
    if appear.Some? && appear.value != [] then appear.value else AllKeys
  }

  /**
   * Where plot i goes in the 2-by-4 grid: `divmod(i, 4)`; a ninth plot asks for a
   * third row the grid does not have, an `IndexError`.
   */
  function Panels(keys: seq<string>): (r: Result<seq<(nat, nat)>>)
    ensures r.Ok? <==> |keys| <= 8
  {
    if |keys| > 8 then Err(IndexError)
    else Ok(seq(|keys|, i requires 0 <= i < |keys| => (i / 4, i % 4)))
  }

  /** Panels lie inside the grid, no two plots share one, and the default seven keys fit. */
  lemma PanelsDistinct(keys: seq<string>)
    requires Panels(keys).Ok?
    ensures |Panels(keys).value| == |keys|
    ensures forall i :: 0 <= i < |keys| ==> Panels(keys).value[i].0 < 2 && Panels(keys).value[i].1 < 4
    ensures forall i, j :: 0 <= i < j < |keys| ==> Panels(keys).value[i] != Panels(keys).value[j]
    ensures Panels(AllKeys).Ok?
  {
  }

  /** Pairs every `-i` file with its `-l` label; different counts are a `ValueError`. */
  function PairDatasets(inputs: seq<string>, labels: seq<string>): (r: Result<seq<(string, string)>>)
    ensures r.Ok? <==> |inputs| == |labels|
    ensures r.Ok? ==> |r.value| == |inputs| && forall k :: 0 <= k < |inputs| ==> r.value[k] == (inputs[k], labels[k])
  {
    if |inputs| != |labels| then Err(ValueError)
    else Ok(seq(|inputs|, k requires 0 <= k < |inputs| => (inputs[k], labels[k])))
  }

  /** The ten colours of plot_dens_vs_temp_multi.py, in order. */
  const ColorCycle: seq<string> := ["blue", "orange", "green", "red", "purple", "cyan", "magenta", "brown", "black", "#FFD700"]

  /** `color_cycle[idx % len(color_cycle)]` */
  function ColorOf(idx: nat): string {
    ColorCycle[idx % |ColorCycle|]
  }

  /** Colours repeat every ten datasets and the first ten datasets all differ. */
  lemma ColorCycles(idx: nat)
    ensures ColorOf(idx + 10) == ColorOf(idx)
    ensures forall j, k :: 0 <= j < k < 10 ==> ColorOf(j) != ColorOf(k)
  {
    assert (idx + 10) % 10 == idx % 10;
    assert forall j :: 0 <= j < 10 ==> j % 10 == j;
  }

  /** What plot_lammps_evolution_Pot_Kin_Tot.py does after parsing. */
  datatype Run = Exit(status: int) | Plot(times: seq<real>)

  /** No parsed step ends the program with status 1; otherwise it plots against `steps * dt`. */
  function EnergyRun(t: Table, dt: real): (r: Run)
    ensures r.Exit? <==> t.steps == []
    ensures r.Exit? ==> r.status == 1
    ensures r.Plot? ==> |r.times| == |t.steps|
  {
    if |t.steps| == 0 then Exit(1) else Plot(XAxis(t.steps, true, dt))
  }

  // ---------------------------------------------------------------------------
  // 3.plot_msd_F_Be_Li.py
  // ---------------------------------------------------------------------------

  /** A line the MSD reader uses: not blank, and not starting with `#` or `Step` before any stripping. */
  predicate UsedLine(line: string) {
    Strip(line) != [] && !StartsWith(line, "#") && !StartsWith(line, "Step")
  }

  datatype MsdRow = MsdRow(time: real, f: real, be: real, li: real)

  /** `float(parts[0])`, then the last three tokens as the MSD of F, Be and Li. */
  function MsdOf(line: string, toReal: RealParser): Result<MsdRow> {
    var parts := Words(line);
    match FloatAt(parts, 0, toReal)
    case Err(e) => Err(e)
    case Ok(time) =>
      match FloatAt(parts, -3, toReal)
      case Err(e) => Err(e)
      case Ok(f) =>
        match FloatAt(parts, -2, toReal)
        case Err(e) => Err(e)
        case Ok(be) =>
          match FloatAt(parts, -1, toReal)
          case Err(e) => Err(e)
          case Ok(li) => Ok(MsdRow(time, f, be, li))
  }

  /** The rows of the used lines, in order; nothing catches a failure. */
  function MsdRows(lines: seq<string>, toReal: RealParser): Result<seq<MsdRow>> {
    if lines == [] then Ok([])
    else
      match MsdRows(lines[..|lines| - 1], toReal)
      case Err(e) => Err(e)
      case Ok(rows) =>
        var line := lines[|lines| - 1];
        if !UsedLine(line) then Ok(rows)
        else
          match MsdOf(line, toReal)
          case Err(e) => Err(e)
          case Ok(row) => Ok(rows + [row])
  }

  function UsedLines(lines: seq<string>): (used: seq<string>)
    ensures forall k :: 0 <= k < |used| ==> UsedLine(used[k])
  {
    if lines == [] then []
    else UsedLines(lines[..|lines| - 1]) + (if UsedLine(lines[|lines| - 1]) then [lines[|lines| - 1]] else [])
  }

  /** Reading line by line is filtering the used lines and then converting every one of them. */
  lemma {:induction false} MsdRowsFilterThenParse(lines: seq<string>, toReal: RealParser)
    ensures MsdRows(lines, toReal) == MapAll(UsedLines(lines), (l: string) => MsdOf(l, toReal))
  {
    if lines != [] {
      var init := lines[..|lines| - 1];
      var line := lines[|lines| - 1];
      MsdRowsFilterThenParse(init, toReal);
      if UsedLine(line) {
        var used := UsedLines(lines);
        assert used[..|used| - 1] == UsedLines(init);
      } else {
        assert UsedLines(lines) == UsedLines(init) + [];
        assert UsedLines(init) + [] == UsedLines(init);
      }
    }
  }

  /** The four lists `read_thermo_msd` returns. */
  datatype MsdTable = MsdTable(time: seq<real>, f: seq<real>, be: seq<real>, li: seq<real>)

  /** `read_thermo_msd`: the four lists, one entry per used line. */
  method ReadThermoMsd(lines: seq<string>, toReal: RealParser) returns (r: Result<MsdTable>)
    ensures r.Ok? <==> MsdRows(lines, toReal).Ok?
    ensures r.Err? ==> r.error == MsdRows(lines, toReal).error
    ensures r.Ok? ==> var rows := MsdRows(lines, toReal).value;
      |r.value.time| == |r.value.f| == |r.value.be| == |r.value.li| == |rows| &&
      forall k :: 0 <= k < |rows| ==>
        rows[k] == MsdRow(r.value.time[k], r.value.f[k], r.value.be[k], r.value.li[k])
  {
    var time: seq<real> := [];
    var msdF: seq<real> := [];
    var msdBe: seq<real> := [];
    var msdLi: seq<real> := [];
    ghost var rows: seq<MsdRow> := [];
    for i := 0 to |lines|
      invariant MsdRows(lines[..i], toReal) == Ok(rows)
      invariant |time| == |msdF| == |msdBe| == |msdLi| == |rows|
      invariant forall k :: 0 <= k < |rows| ==> rows[k] == MsdRow(time[k], msdF[k], msdBe[k], msdLi[k])
    {
      assert lines[..i + 1][..i] == lines[..i];
      var line := lines[i];
      if UsedLine(line) {
        var row := MsdOf(line, toReal);
        if row.Err? {
          MsdRowsErr(lines, i + 1, row.error, toReal);
          return Err(row.error);
        }
        time := time + [row.value.time];
        msdF := msdF + [row.value.f];
        msdBe := msdBe + [row.value.be];
        msdLi := msdLi + [row.value.li];
        rows := rows + [row.value];
      }
    }
    assert lines[..|lines|] == lines;
    r := Ok(MsdTable(time, msdF, msdBe, msdLi));
  }

  lemma {:induction false} MsdRowsErr(lines: seq<string>, k: nat, e: Error, toReal: RealParser)
    requires k <= |lines| && MsdRows(lines[..k], toReal) == Err(e)
    ensures MsdRows(lines, toReal) == Err(e)
    decreases |lines| - k
  {
    if k < |lines| {
      assert lines[..k + 1][..k] == lines[..k];
      MsdRowsErr(lines, k + 1, e, toReal);
    } else {
      assert lines[..k] == lines;
    }
  }
}
