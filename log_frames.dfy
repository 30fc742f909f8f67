// LAMMPS thermo logs read into tables and combined with a cumulative offset
// (LAMMPS/Cascade/script/010.system.convert_combine_data.py and
// LAMMPS/Cascade/script/000.use_this_check_first_process_and_plot_logs.py).

module LogFrames {
  import opened Wrappers
  import opened Text

  // ------------------------------------------------------------------
  // read_log_file: which lines reach the table parser
  // ------------------------------------------------------------------

  /** A stripped line that is skipped: blank, or a `==>` file marker. */
  predicate Skipped(line: string) {
    line == [] || StartsWith(line, "==>")
  }

  /** The stripped lines that are kept, in file order. */
  function KeptLines(lines: seq<string>): seq<string> {
    if lines == [] then []
    else
      var init := KeptLines(lines[..|lines| - 1]);
      var s := Strip(lines[|lines| - 1]);
      if Skipped(s) then init else init + [s]
  }

  /** `line.split()[0][0].isalpha()` */
  predicate IsHeader(line: string) {
    var ws := Words(line);
    ws != [] && IsAlpha(ws[0][0])
  }

  /** The first kept line that starts with a letter, if any. */
  function FirstHeader(kept: seq<string>): Option<string> {
    if kept == [] then None
    else if IsHeader(kept[0]) then Some(kept[0])
    else FirstHeader(kept[1..])
  }

  lemma {:induction false} FirstHeaderSnoc(kept: seq<string>, s: string)
    ensures FirstHeader(kept + [s]) ==
      if FirstHeader(kept).Some? then FirstHeader(kept) else if IsHeader(s) then Some(s) else None
  {
    if kept == [] {
      assert ([s])[1..] == [];
    } else {
      assert (kept + [s])[1..] == kept[1..] + [s];
      FirstHeaderSnoc(kept[1..], s);
    }
  }

  /**
   * The line loop of `read_log_file`: blank and `==>` lines are dropped, the
   * first line starting with a letter becomes the header, and every kept
   * line (header included) goes to the table parser in order.
   */
  method ReadLogLines(lines: seq<string>) returns (dataLines: seq<string>, header: Option<string>)
    ensures dataLines == KeptLines(lines)
    ensures header == FirstHeader(dataLines)
  {
    dataLines := [];
    header := None;
    for i := 0 to |lines|
      invariant dataLines == KeptLines(lines[..i])
      invariant header == FirstHeader(dataLines)
    {
      assert lines[..i + 1][..i] == lines[..i];
      var lineStrip := Strip(lines[i]);
      if lineStrip == [] || StartsWith(lineStrip, "==>") {
      } else {
        FirstHeaderSnoc(dataLines, lineStrip);
        if header.None? && IsHeader(lineStrip) {
          header := Some(lineStrip);
          dataLines := dataLines + [header.value];
        } else {
          dataLines := dataLines + [lineStrip];
        }
      }
    }
    assert lines[..|lines|] == lines;
  }

  /** Every kept line is stripped, non-blank and not a `==>` marker; nothing is added. */
  lemma {:induction false} KeptLinesShape(lines: seq<string>)
    ensures |KeptLines(lines)| <= |lines|
    ensures forall k :: 0 <= k < |KeptLines(lines)| ==>
      var s := KeptLines(lines)[k];
      s != [] && !IsSpace(s[0]) && !IsSpace(s[|s| - 1]) && !StartsWith(s, "==>")
  {
    if lines != [] {
      KeptLinesShape(lines[..|lines| - 1]);
    }
  }

  /** Filtering works line by line: the kept lines of two pieces of a file are kept in order. */
  lemma {:induction false} KeptLinesAppend(a: seq<string>, b: seq<string>)
    ensures KeptLines(a + b) == KeptLines(a) + KeptLines(b)
    decreases |b|
  {
    if b == [] {
      assert a + b == a;
    } else {
      var init := b[..|b| - 1];
      assert (a + b)[..|a + b| - 1] == a + init;
      KeptLinesAppend(a, init);
    }
  }

  /** A line with visible content that is not a marker is kept. */
  lemma KeptLine(line: string)
    requires !Skipped(Strip(line))
    ensures KeptLines([line]) == [Strip(line)]
  {
    assert [line][..0] == [];
  }

  /** The header is the first kept line starting with a letter; there is none only if no kept line does. */
  lemma {:induction false} FirstHeaderMeaning(kept: seq<string>)
    ensures FirstHeader(kept).None? <==> forall i :: 0 <= i < |kept| ==> !IsHeader(kept[i])
    ensures FirstHeader(kept).Some? ==>
      exists i :: 0 <= i < |kept| && kept[i] == FirstHeader(kept).value && IsHeader(kept[i])
        && forall j :: 0 <= j < i ==> !IsHeader(kept[j])
  {
    if kept != [] {
      FirstHeaderMeaning(kept[1..]);
      if !IsHeader(kept[0]) {
        if FirstHeader(kept[1..]).Some? {
          var i :| 0 <= i < |kept[1..]| && kept[1..][i] == FirstHeader(kept[1..]).value && IsHeader(kept[1..][i])
            && forall j :: 0 <= j < i ==> !IsHeader(kept[1..][j]);
          assert kept[i + 1] == kept[1..][i];
          forall j | 0 <= j < i + 1
            ensures !IsHeader(kept[j])
          {
            if j > 0 {
              assert kept[j] == kept[1..][j - 1];
            }
          }
        } else {
          forall i | 0 <= i < |kept|
            ensures !IsHeader(kept[i])
          {
            if i > 0 {
              assert kept[i] == kept[1..][i - 1];
            }
          }
        }
      }
    }
  }

  /** On a kept line, `split()[0][0]` is the line's first character, so the header test never indexes out of range. */
  lemma HeaderIsFirstChar(line: string)
    requires line != [] && !IsSpace(line[0])
    ensures IsHeader(line) <==> IsAlpha(line[0])
  {
    var n := WordLen(line);
    assert n > 0;
    assert Words(line) == [line[..n]] + Words(line[n..]);
  }

  // ------------------------------------------------------------------
  // Tables as pandas holds them
  // ------------------------------------------------------------------

  /**
   * A table cell: a number, pandas' missing value, or text. A column holds
   * text when the log repeats its header line after the first one: the
   * repeated header is kept as a data row.
   */
  datatype Cell = Num(v: real) | NaN | Text(s: string)

  /** A column pandas can add a number to: no cell holds text. */
  predicate NumericCells(cs: seq<Cell>) {
    forall i :: 0 <= i < |cs| ==> !cs[i].Text?
  }

  datatype Table = Table(columns: seq<string>, rows: seq<seq<Cell>>)

  predicate Rectangular(t: Table) {
    forall r :: r in t.rows ==> |r| == |t.columns|
  }

  /** A DataFrame: every row has one cell per column. */
  type Frame = t: Table | Rectangular(t) witness Table([], [])

  /** Position of the first column called `name`. */
  function ColumnIndex(cols: seq<string>, name: string): (j: nat)
    requires name in cols
    ensures j < |cols| && cols[j] == name
    ensures forall k :: 0 <= k < j ==> cols[k] != name
  {
    if cols[0] == name then 0 else 1 + ColumnIndex(cols[1..], name)
  }

  /** `df[name]` */
  function Column(f: Frame, name: string): (col: seq<Cell>)
    requires name in f.columns
    ensures |col| == |f.rows|
  {
    var j := ColumnIndex(f.columns, name);
    seq(|f.rows|, i requires 0 <= i < |f.rows| => assert f.rows[i] in f.rows; f.rows[i][j])
  }

  /** `+` on numeric cells: missing values propagate. */
  function AddCell(a: Cell, b: Cell): Cell
    requires !a.Text? && !b.Text?
  {
    if a.Num? && b.Num? then Num(a.v + b.v) else NaN
  }

  /** `*` on numeric cells: missing values propagate. */
  function MulCell(a: Cell, b: Cell): Cell
    requires !a.Text? && !b.Text?
  {
    if a.Num? && b.Num? then Num(a.v * b.v) else NaN
  }

  /** `column + offset`, element-wise. */
  function ShiftCells(cs: seq<Cell>, off: Cell): (ds: seq<Cell>)
    requires NumericCells(cs) && !off.Text?
    ensures |ds| == |cs| && NumericCells(ds)
  {
    seq(|cs|, i requires 0 <= i < |cs| => AddCell(cs[i], off))
  }

  /**
   * `Series.max()` of a numeric column, skipping missing values: missing
   * when no cell is a number, otherwise the largest number.
   */
  function MaxCell(cs: seq<Cell>): (m: Cell)
    ensures !m.Text?
    ensures m.NaN? <==> forall i :: 0 <= i < |cs| ==> !cs[i].Num?
    ensures m.Num? ==> (forall i :: 0 <= i < |cs| && cs[i].Num? ==> cs[i].v <= m.v)
    ensures m.Num? ==> exists i :: 0 <= i < |cs| && cs[i] == m
  {
    if cs == [] then NaN
    else
      var m := MaxCell(cs[..|cs| - 1]);
      var c := cs[|cs| - 1];
      assert forall i :: 0 <= i < |cs| - 1 ==> cs[..|cs| - 1][i] == cs[i];
      if !c.Num? then m
      else if m.NaN? || m.v < c.v then c
      else m
  }

  /** Adding the same offset to every cell adds it to the maximum. */
  lemma {:induction false} MaxCellShift(cs: seq<Cell>, off: Cell)
    requires NumericCells(cs) && !off.Text?
    ensures MaxCell(ShiftCells(cs, off)) == (if MaxCell(cs).NaN? then NaN else AddCell(MaxCell(cs), off))
  {
    if cs != [] {
      var init := cs[..|cs| - 1];
      assert forall i :: 0 <= i < |init| ==> init[i] == cs[i];
      MaxCellShift(init, off);
      assert ShiftCells(cs, off)[..|cs| - 1] == ShiftCells(init, off);
    }
  }

  // ------------------------------------------------------------------
  // 010: combine_log_files_with_offset
  // ------------------------------------------------------------------

  predicate HasSimTime(f: Frame) { "v_simTime" in f.columns }

  /** One file's share of the combined table: the file's own table, `convert_simTime`, `source_file`. */
  datatype Piece = Piece(frame: Frame, convert: seq<Cell>, source: string)

  datatype Combined = Combined(pieces: seq<Piece>, offset: Cell)

  /**
   * A file that can be combined: it was read and has a `v_simTime` column
   * without text. A file without the column is reported and skipped; text
   * in the column makes the addition raise TypeError, which is caught, so
   * that file is skipped as well.
   */
  predicate Usable(file: (string, Option<Frame>)) {
    file.1.Some? && HasSimTime(file.1.value) && NumericCells(Column(file.1.value, "v_simTime"))
  }

  /** The loop over `(path, table or read failure)`, in list order. */
  function Combine(files: seq<(string, Option<Frame>)>): (c: Combined)
    ensures !c.offset.Text?
  {
    if files == [] then Combined([], Num(0.0))
    else
      var c := Combine(files[..|files| - 1]);
      var file := files[|files| - 1];
      if !Usable(file) then c
      else
        var convert := ShiftCells(Column(file.1.value, "v_simTime"), c.offset);
        Combined(c.pieces + [Piece(file.1.value, convert, Basename(file.0))], MaxCell(convert))
  }

  method CombineLogFilesWithOffset(files: seq<(string, Option<Frame>)>) returns (pieces: seq<Piece>)
    ensures pieces == Combine(files).pieces
  {
    var cumulativeOffset := Num(0.0);
    pieces := [];
    for k := 0 to |files|
      invariant Combine(files[..k]) == Combined(pieces, cumulativeOffset)
    {
      assert files[..k + 1][..k] == files[..k];
      var (path, read) := files[k];
      if read.None? || !HasSimTime(read.value) {
        // reported and skipped
      } else if !NumericCells(Column(read.value, "v_simTime")) {
        // TypeError in the addition, reported and skipped
      } else {
        var df := read.value;
        var convert := ShiftCells(Column(df, "v_simTime"), cumulativeOffset);
        cumulativeOffset := MaxCell(convert);
        pieces := pieces + [Piece(df, convert, Basename(path))];
      }
    }
    assert files[..|files|] == files;
  }

  /** The usable files, each with the name it is tagged with. */
  function UsableFiles(files: seq<(string, Option<Frame>)>): seq<(Frame, string)> {
    if files == [] then []
    else
      var init := UsableFiles(files[..|files| - 1]);
      var file := files[|files| - 1];
      if Usable(file) then init + [(file.1.value, Basename(file.0))] else init
  }

  /** The offset in force before piece `k`: 0, then the largest converted time of the piece before. */
  function OffsetBefore(pieces: seq<Piece>, k: nat): (off: Cell)
    requires k <= |pieces|
    ensures !off.Text?
  {
    if k == 0 then Num(0.0) else MaxCell(pieces[k - 1].convert)
  }

  /** One piece per usable file, in order, holding the file's table unchanged and its base name. */
  lemma {:induction false} CombineSelects(files: seq<(string, Option<Frame>)>)
    ensures var ps := Combine(files).pieces;
      |ps| == |UsableFiles(files)|
      && forall k :: 0 <= k < |ps| ==> (ps[k].frame, ps[k].source) == UsableFiles(files)[k]
  {
    if files != [] {
      CombineSelects(files[..|files| - 1]);
    }
  }

  /** `convert_simTime` of a piece is its `v_simTime` plus `off`. */
  predicate Shifted(p: Piece, off: Cell) {
    HasSimTime(p.frame) && NumericCells(Column(p.frame, "v_simTime")) && !off.Text?
    && p.convert == ShiftCells(Column(p.frame, "v_simTime"), off)
  }

  /** Every piece is shifted by the offset in force before it. */
  predicate Chained(ps: seq<Piece>) {
    forall k :: 0 <= k < |ps| ==> Shifted(ps[k], OffsetBefore(ps, k))
  }

  lemma ChainedSnoc(ps: seq<Piece>, p: Piece)
    requires Chained(ps) && Shifted(p, OffsetBefore(ps, |ps|))
    ensures Chained(ps + [p])
  {
    var qs := ps + [p];
    forall k | 0 <= k < |qs|
      ensures Shifted(qs[k], OffsetBefore(qs, k))
    {
      if k < |ps| {
        assert qs[k] == ps[k];
        assert OffsetBefore(qs, k) == OffsetBefore(ps, k) by {
          if k > 0 {
            assert qs[k - 1] == ps[k - 1];
          }
        }
      } else if k > 0 {
        assert qs[k - 1] == ps[k - 1];
      }
    }
  }

  /**
   * Each piece's `convert_simTime` is its `v_simTime` plus the largest
   * converted time of the piece before (0 for the first), and the final
   * offset is the largest converted time of the last piece.
   */
  lemma {:induction false} CombineOffsets(files: seq<(string, Option<Frame>)>)
    ensures Chained(Combine(files).pieces)
    ensures Combine(files).offset == OffsetBefore(Combine(files).pieces, |Combine(files).pieces|)
  {
    if files != [] {
      var init := files[..|files| - 1];
      CombineOffsets(init);
      var file := files[|files| - 1];
      if Usable(file) {
        var c0 := Combine(init);
        var convert := ShiftCells(Column(file.1.value, "v_simTime"), c0.offset);
        ChainedSnoc(c0.pieces, Piece(file.1.value, convert, Basename(file.0)));
      }
    }
  }

  /** Every value of a piece is a number no larger than every value of a later piece. */
  predicate InOrder(pieces: seq<Piece>) {
    forall i, j, a, b :: 0 <= i < j < |pieces| && 0 <= a < |pieces[i].convert| && 0 <= b < |pieces[j].convert| ==>
      (pieces[i].convert[a].Num? && pieces[j].convert[b].Num? && pieces[i].convert[a].v <= pieces[j].convert[b].v)
  }

  /** Every usable file has rows, all with a non-negative number for `v_simTime`. */
  predicate NonNegativeTimes(files: seq<(string, Option<Frame>)>) {
    forall k :: 0 <= k < |files| && Usable(files[k]) ==>
      var col := Column(files[k].1.value, "v_simTime");
      col != [] && forall i :: 0 <= i < |col| ==> col[i].Num? && col[i].v >= 0.0
  }

  /** Every converted time of every piece is a number at most `m`. */
  predicate AtMost(ps: seq<Piece>, m: real) {
    forall i, a :: 0 <= i < |ps| && 0 <= a < |ps[i].convert| ==>
      (ps[i].convert[a].Num? && ps[i].convert[a].v <= m)
  }

  /** Every cell is a number at least `m`. */
  predicate AtLeast(cs: seq<Cell>, m: real) {
    forall a :: 0 <= a < |cs| ==> (cs[a].Num? && cs[a].v >= m)
  }

  lemma InOrderSnoc(ps: seq<Piece>, p: Piece, m: real)
    requires InOrder(ps) && AtMost(ps, m) && AtLeast(p.convert, m)
    ensures InOrder(ps + [p])
  {
    var qs := ps + [p];
    forall i, j, a, b | 0 <= i < j < |qs| && 0 <= a < |qs[i].convert| && 0 <= b < |qs[j].convert|
      ensures qs[i].convert[a].Num? && qs[j].convert[b].Num? && qs[i].convert[a].v <= qs[j].convert[b].v
    {
      assert qs[i] == ps[i];
      if j < |ps| {
        assert qs[j] == ps[j];
      }
    }
  }

  lemma AtMostSnoc(ps: seq<Piece>, p: Piece, m: real, m2: real)
    requires AtMost(ps, m) && m <= m2
    requires forall a :: 0 <= a < |p.convert| ==> (p.convert[a].Num? && p.convert[a].v <= m2)
    ensures AtMost(ps + [p], m2)
  {
    var qs := ps + [p];
    forall i, a | 0 <= i < |qs| && 0 <= a < |qs[i].convert|
      ensures qs[i].convert[a].Num? && qs[i].convert[a].v <= m2
    {
      if i < |ps| {
        assert qs[i] == ps[i];
      }
    }
  }

  /** Non-negative times shifted by a non-negative offset stay at or above the offset. */
  lemma ShiftAtLeast(col: seq<Cell>, off: real)
    requires AtLeast(col, 0.0) && off >= 0.0
    ensures AtLeast(ShiftCells(col, Num(off)), off)
  {
  }

  /**
   * With non-negative times in every file, the combined time axis never
   * goes back: every converted time of a later file is at least every
   * converted time of an earlier one, and the offset bounds them all.
   */
  lemma {:induction false} CombineInOrder(files: seq<(string, Option<Frame>)>)
    requires NonNegativeTimes(files)
    ensures InOrder(Combine(files).pieces)
    ensures Combine(files).offset.Num? && Combine(files).offset.v >= 0.0
    ensures AtMost(Combine(files).pieces, Combine(files).offset.v)
  {
    if files != [] {
      var init := files[..|files| - 1];
      assert NonNegativeTimes(init) by {
        forall k | 0 <= k < |init| && Usable(init[k])
          ensures var col := Column(init[k].1.value, "v_simTime");
            col != [] && forall i :: 0 <= i < |col| ==> col[i].Num? && col[i].v >= 0.0
        {
          assert init[k] == files[k];
        }
      }
      CombineInOrder(init);
      var c0 := Combine(init);
      var file := files[|files| - 1];
      if Usable(file) {
        var col := Column(file.1.value, "v_simTime");
        assert AtLeast(col, 0.0);
        var convert := ShiftCells(col, c0.offset);
        ShiftAtLeast(col, c0.offset.v);
        var m := MaxCell(convert);
        assert m.Num? && m.v >= c0.offset.v by {
          assert convert[0].Num? && convert[0].v >= c0.offset.v;
        }
        var p := Piece(file.1.value, convert, Basename(file.0));
        InOrderSnoc(c0.pieces, p, c0.offset.v);
        AtMostSnoc(c0.pieces, p, c0.offset.v, m.v);
      }
    }
  }

  /** `main` writes `combined_data.csv` only when the concatenated table has rows. */
  function WritesCsv(pieces: seq<Piece>): (w: bool)
    ensures w <==> exists k :: 0 <= k < |pieces| && pieces[k].frame.rows != []
  {
    RowCountPositive(pieces);
    RowCount(pieces) > 0
  }

  /** Rows of `pd.concat` over the pieces. */
  function RowCount(pieces: seq<Piece>): nat {
    if pieces == [] then 0 else RowCount(pieces[..|pieces| - 1]) + |pieces[|pieces| - 1].frame.rows|
  }

  lemma {:induction false} RowCountPositive(pieces: seq<Piece>)
    ensures RowCount(pieces) > 0 <==> exists k :: 0 <= k < |pieces| && pieces[k].frame.rows != []
  {
    if pieces != [] {
      var init := pieces[..|pieces| - 1];
      RowCountPositive(init);
      if exists k :: 0 <= k < |init| && init[k].frame.rows != [] {
        var k :| 0 <= k < |init| && init[k].frame.rows != [];
        assert pieces[k] == init[k];
      }
      if exists k :: 0 <= k < |pieces| && pieces[k].frame.rows != [] {
        var k :| 0 <= k < |pieces| && pieces[k].frame.rows != [];
        if k < |init| {
          assert init[k] == pieces[k];
        }
      }
    }
  }

  // ------------------------------------------------------------------
  // 000: NaN filling, per-file breakpoints and the combined Step axis
  // ------------------------------------------------------------------

  function FillCell(c: Cell): Cell {
    if c.NaN? then Num(0.0) else c
  }

  /** `df.fillna(0, inplace=True)` */
  function FillNa(f: Frame): (g: Frame)
    ensures g.columns == f.columns && |g.rows| == |f.rows|
  {
    var rows := seq(|f.rows|, i requires 0 <= i < |f.rows| =>
      assert f.rows[i] in f.rows;
      seq(|f.rows[i]|, j requires 0 <= j < |f.rows[i]| => FillCell(f.rows[i][j])));
    Table(f.columns, rows)
  }

  /** Filling puts 0 where a value was missing and leaves every other cell in place. */
  lemma FillNaMeaning(f: Frame)
    ensures var g := FillNa(f);
      forall i, j :: 0 <= i < |g.rows| && 0 <= j < |g.columns| ==>
        (!g.rows[i][j].NaN? && (!f.rows[i][j].NaN? ==> g.rows[i][j] == f.rows[i][j])
         && (f.rows[i][j].NaN? ==> g.rows[i][j] == Num(0.0)))
  {
    var g := FillNa(f);
    forall i, j | 0 <= i < |g.rows| && 0 <= j < |g.columns|
      ensures g.rows[i][j] == FillCell(f.rows[i][j])
    {
      assert f.rows[i] in f.rows;
    }
  }

  /** A table without missing values. */
  predicate NoNaN(f: Frame) {
    forall i, j :: 0 <= i < |f.rows| && 0 <= j < |f.columns| ==> !f.rows[i][j].NaN?
  }

  /** Filling twice changes nothing more. */
  lemma FillNaIdempotent(f: Frame)
    ensures NoNaN(FillNa(f)) && FillNa(FillNa(f)) == FillNa(f)
  {
    var g := FillNa(f);
    var h := FillNa(g);
    FillNaMeaning(f);
    assert |h.rows| == |g.rows|;
    forall i | 0 <= i < |g.rows|
      ensures h.rows[i] == g.rows[i]
    {
      assert h.rows[i] in h.rows && g.rows[i] in g.rows;
    }
  }

  /** `df[name] += off` */
  function ShiftColumn(f: Frame, name: string, off: Cell): (g: Frame)
    requires name in f.columns && NumericCells(Column(f, name)) && !off.Text?
    ensures g.columns == f.columns && name in g.columns
    ensures Column(g, name) == ShiftCells(Column(f, name), off)
  {
    var j := ColumnIndex(f.columns, name);
    var rows := seq(|f.rows|, i requires 0 <= i < |f.rows| =>
      assert f.rows[i] in f.rows;
      assert f.rows[i][j] == Column(f, name)[i];
      f.rows[i][j := AddCell(f.rows[i][j], off)]);
    var g := Table(f.columns, rows);
    assert Rectangular(g) by {
      forall r | r in g.rows
        ensures |r| == |g.columns|
      {
        var i :| 0 <= i < |rows| && rows[i] == r;
        assert f.rows[i] in f.rows;
      }
    }
    g
  }

  /**
   * A file that moves the offset in either mode: read, with `v_simTime` and
   * a `Step` column without text after filling. Without `v_simTime` the
   * file is skipped, without `Step` it fails with KeyError, and with text
   * in `Step` adding it to the offset fails with TypeError; the offset is
   * left alone in all three cases.
   */
  predicate StepUsable(file: Option<Frame>) {
    file.Some? && HasSimTime(FillNa(file.value)) && "Step" in file.value.columns
    && NumericCells(Column(FillNa(file.value), "Step"))
  }

  /** The temperature figure of individual mode can be drawn: `c_sys`, `c_ex` and `c_in` are columns. */
  predicate Plotted(f: Frame) {
    "c_sys" in f.columns && "c_ex" in f.columns && "c_in" in f.columns
  }

  datatype Breaks = Breaks(breakpoints: seq<Cell>, offset: Cell)

  /**
   * Individual mode: for each usable file the breakpoint is the cumulative
   * offset + 2540, then the offset grows by the file's largest `Step`. The
   * breakpoint is drawn only when the temperature columns exist; otherwise
   * the file fails with KeyError after the offset has grown.
   */
  function Individual(files: seq<Option<Frame>>): (b: Breaks)
    ensures !b.offset.Text?
  {
    if files == [] then Breaks([], Num(0.0))
    else
      var b := Individual(files[..|files| - 1]);
      var file := files[|files| - 1];
      if !StepUsable(file) then b
      else
        var df := FillNa(file.value);
        var offset := AddCell(b.offset, MaxCell(Column(df, "Step")));
        if Plotted(df) then Breaks(b.breakpoints + [AddCell(b.offset, Num(2540.0))], offset)
        else Breaks(b.breakpoints, offset)
  }

  datatype Steps = Steps(frames: seq<Frame>, offset: Cell)

  /**
   * Combined mode: each usable file's `Step` is shifted by the cumulative
   * offset, which then becomes the largest shifted `Step`.
   */
  function CombinedSteps(files: seq<Option<Frame>>): (c: Steps)
    ensures !c.offset.Text?
  {
    if files == [] then Steps([], Num(0.0))
    else
      var c := CombinedSteps(files[..|files| - 1]);
      var file := files[|files| - 1];
      if !StepUsable(file) then c
      else
        var df := ShiftColumn(FillNa(file.value), "Step", c.offset);
        Steps(c.frames + [df], MaxCell(Column(df, "Step")))
  }

  /** The fold over one more file, unfolded once. */
  lemma IndividualStep(files: seq<Option<Frame>>)
    requires files != []
    ensures var b := Individual(files[..|files| - 1]);
      var file := files[|files| - 1];
      Individual(files) ==
        if !StepUsable(file) then b
        else
          var df := FillNa(file.value);
          var offset := AddCell(b.offset, MaxCell(Column(df, "Step")));
          if Plotted(df) then Breaks(b.breakpoints + [AddCell(b.offset, Num(2540.0))], offset)
          else Breaks(b.breakpoints, offset)
  {
  }

  /** `process_and_plot_individual_logs`: the breakpoint drawn in each temperature figure. */
  method ProcessIndividualLogs(files: seq<Option<Frame>>) returns (breakpoints: seq<Cell>)
    ensures breakpoints == Individual(files).breakpoints
  {
    var cumulativeOffset := Num(0.0);
    breakpoints := [];
    for k := 0 to |files|
      invariant Individual(files[..k]) == Breaks(breakpoints, cumulativeOffset)
    {
      assert files[..k + 1][..k] == files[..k];
      if files[k].Some? {
        var df := FillNa(files[k].value);
        if HasSimTime(df) && "Step" in df.columns && NumericCells(Column(df, "Step")) {
          var breakpoint := AddCell(cumulativeOffset, Num(2540.0));
          cumulativeOffset := AddCell(cumulativeOffset, MaxCell(Column(df, "Step")));
          if Plotted(df) {
            breakpoints := breakpoints + [breakpoint];
          }
        }
        IndividualStep(files[..k + 1]);
      }
    }
    assert files[..|files|] == files;
  }

  /** `combine_and_plot_all_logs`: the tables that are concatenated, `Step` shifted. */
  method CombineAllLogs(files: seq<Option<Frame>>) returns (frames: seq<Frame>)
    ensures frames == CombinedSteps(files).frames
  {
    var cumulativeOffset := Num(0.0);
    frames := [];
    for k := 0 to |files|
      invariant CombinedSteps(files[..k]) == Steps(frames, cumulativeOffset)
    {
      assert files[..k + 1][..k] == files[..k];
      if files[k].Some? {
        var df := FillNa(files[k].value);
        if HasSimTime(df) && "Step" in df.columns && NumericCells(Column(df, "Step")) {
          df := ShiftColumn(df, "Step", cumulativeOffset);
          cumulativeOffset := MaxCell(Column(df, "Step"));
          frames := frames + [df];
        }
      }
    }
    assert files[..|files|] == files;
  }

  /** Every file that moves the offset also has the temperature columns. */
  predicate AllPlotted(files: seq<Option<Frame>>) {
    forall k :: 0 <= k < |files| && StepUsable(files[k]) ==> Plotted(FillNa(files[k].value))
  }

  /**
   * Both modes keep the same cumulative offset, so each breakpoint of the
   * individual plots is 2540 past the offset by which the combined table
   * shifts that same file.
   */
  lemma {:induction false} ModesShareOffset(files: seq<Option<Frame>>)
    ensures Individual(files).offset == CombinedSteps(files).offset
    ensures |Individual(files).breakpoints| <= |CombinedSteps(files).frames|
    ensures AllPlotted(files) ==> |Individual(files).breakpoints| == |CombinedSteps(files).frames|
  {
    if files != [] {
      var init := files[..|files| - 1];
      assert AllPlotted(files) ==> AllPlotted(init) by {
        if AllPlotted(files) {
          forall k | 0 <= k < |init| && StepUsable(init[k])
            ensures Plotted(FillNa(init[k].value))
          {
            assert init[k] == files[k];
          }
        }
      }
      ModesShareOffset(init);
      var file := files[|files| - 1];
      if StepUsable(file) {
        var off := CombinedSteps(init).offset;
        var df := FillNa(file.value);
        MaxCellShift(Column(df, "Step"), off);
        if MaxCell(Column(df, "Step")).Num? && off.Num? {
          assert AddCell(MaxCell(Column(df, "Step")), off) == AddCell(off, MaxCell(Column(df, "Step")));
        }
      }
    }
  }

  /**
   * `df['Time_ps'] = df['Step'] * df['Dt']`, only when there is a `Dt`
   * column; a table without `Step` then fails with KeyError, and text in
   * either column with TypeError.
   */
  function TimePs(f: Frame): (r: Result<Option<seq<Cell>>>)
    ensures r.Ok? && r.value.None? <==> "Dt" !in f.columns
    ensures r == Err(KeyError) <==> "Dt" in f.columns && "Step" !in f.columns
    ensures r == Err(TypeError) <==> ("Dt" in f.columns && "Step" in f.columns
      && !(NumericCells(Column(f, "Step")) && NumericCells(Column(f, "Dt"))))
    ensures r.Ok? && r.value.Some? ==>
      var t := r.value.value;
      |t| == |f.rows|
      && forall i :: 0 <= i < |t| ==> (t[i].NaN? <==> Column(f, "Step")[i].NaN? || Column(f, "Dt")[i].NaN?)
  {
    if "Dt" !in f.columns then Ok(None)
    else if "Step" !in f.columns then Err(KeyError)
    else
      var step, dt := Column(f, "Step"), Column(f, "Dt");
      if !(NumericCells(step) && NumericCells(dt)) then Err(TypeError)
      else Ok(Some(seq(|f.rows|, i requires 0 <= i < |f.rows| => MulCell(step[i], dt[i]))))
  }
}
