/**
 * Per-frame cluster tables written by the cluster detector, one file per
 * frame: selecting the files by the frame number in their names, tagging
 * their rows, and the per-frame statistics and size/category tables built
 * from them.
 */
module ClusterTables {
  import opened Wrappers
  import opened Text
  import opened Tally
  import opened Sorting

  // ---------------------------------------------------------------------
  // Frame numbers in file names
  // ---------------------------------------------------------------------

  /**
   * What `[._]?(\d+)` captures right after the prefix: the digits after one
   * optional '.' or '_', else the digits straight after the prefix.
   */
  function AfterPrefix(rest: string): (r: Option<nat>) {
    if |rest| > 0 && (rest[0] == '.' || rest[0] == '_') && DigitRun(rest[1..]) != [] then
      Some(DigitsValue(DigitRun(rest[1..])))
    else if DigitRun(rest) != [] then Some(DigitsValue(DigitRun(rest)))
    else None
  }

  /** `re.search(prefix[._]?(\d+), name)` from position `from` on: the leftmost match wins. */
  function SearchFrom(name: string, prefix: string, from: nat): (r: Option<nat>)
    decreases |name| - from
  {
    if from > |name| then None
    else if StartsWith(name[from..], prefix) && AfterPrefix(name[from + |prefix|..]).Some? then
      AfterPrefix(name[from + |prefix|..])
    else SearchFrom(name, prefix, from + 1)
  }

  /** The frame number of a cluster file name, if the pattern occurs in it. */
  function FrameOf(name: string, prefix: string): Option<nat> {
    SearchFrom(name, prefix, 0)
  }

  /** A found frame number is the value of a digit run that follows an occurrence of the prefix. */
  lemma {:induction false} SearchFromMeaning(name: string, prefix: string, from: nat)
    ensures SearchFrom(name, prefix, from).Some? ==>
      exists p :: from <= p <= |name| && StartsWith(name[p..], prefix) &&
        AfterPrefix(name[p + |prefix|..]) == SearchFrom(name, prefix, from)
    decreases |name| - from
  {
    if from <= |name| && !(StartsWith(name[from..], prefix) && AfterPrefix(name[from + |prefix|..]).Some?) {
      SearchFromMeaning(name, prefix, from + 1);
    }
  }

  /** The digits of a decimal spelling form a complete digit run. */
  lemma DigitRunOfNumber(n: nat, rest: string)
    requires rest == [] || !IsDigit(rest[0])
    ensures DigitRun(NatToString(n) + rest) == NatToString(n)
  {
    DigitRunOfDigits(NatToString(n), rest);
  }

  lemma {:induction false} DigitRunOfDigits(s: string, rest: string)
    requires forall i :: 0 <= i < |s| ==> IsDigit(s[i])
    requires rest == [] || !IsDigit(rest[0])
    ensures DigitRun(s + rest) == s
  {
    if s != [] {
      assert (s + rest)[1..] == s[1..] + rest;
      DigitRunOfDigits(s[1..], rest);
    } else {
      assert s + rest == rest;
    }
  }

  /** The digits after the separator are read as the frame number. */
  lemma AfterPrefixOf(sep: string, n: nat, ext: string)
    requires sep == "." || sep == "_" || sep == ""
    requires ext == [] || !IsDigit(ext[0])
    ensures AfterPrefix(sep + NatToString(n) + ext) == Some(n)
  {
    DigitRunOfNumber(n, ext);
    DigitsValueNatToString(n);
    AfterPrefixDigits(sep, NatToString(n), ext);
  }

  lemma AfterPrefixDigits(sep: string, d: string, ext: string)
    requires sep == "." || sep == "_" || sep == ""
    requires IsDigits(d) && DigitRun(d + ext) == d
    ensures AfterPrefix(sep + d + ext) == Some(DigitsValue(d))
  {
    if sep == "" {
      assert sep + d + ext == d + ext;
      AfterDigits(d, ext);
    } else {
      assert sep == [sep[0]];
      AfterSeparatorDigits(sep[0], d, ext);
    }
  }

  lemma AfterDigits(d: string, ext: string)
    requires IsDigits(d) && DigitRun(d + ext) == d
    ensures AfterPrefix(d + ext) == Some(DigitsValue(d))
  {
    assert (d + ext)[0] == d[0];
  }

  lemma AfterSeparatorDigits(c: char, d: string, ext: string)
    requires c == '.' || c == '_'
    requires IsDigits(d) && DigitRun(d + ext) == d
    ensures AfterPrefix([c] + d + ext) == Some(DigitsValue(d))
  {
    assert ([c] + d + ext)[1..] == d + ext;
  }

  /** A file named "prefix.N" (or "prefix_N", or "prefixN") carries frame N. */
  lemma FrameOfName(prefix: string, sep: string, n: nat, ext: string)
    requires sep == "." || sep == "_" || sep == ""
    requires ext == [] || !IsDigit(ext[0])
    ensures FrameOf(prefix + sep + NatToString(n) + ext, prefix) == Some(n)
  {
    AfterPrefixOf(sep, n, ext);
    FrameOfTail(prefix, sep, NatToString(n), ext, n);
  }

  lemma FrameOfTail(prefix: string, sep: string, d: string, ext: string, v: nat)
    requires AfterPrefix(sep + d + ext) == Some(v)
    ensures FrameOf(prefix + sep + d + ext, prefix) == Some(v)
  {
    var tail := sep + d + ext;
    var name := prefix + tail;
    assert prefix + sep + d + ext == name;
    assert name[0..] == name;
    assert name[..|prefix|] == prefix;
    assert name[|prefix|..] == tail;
  }

  // ---------------------------------------------------------------------
  // Loading
  //
  // The loaders take the reading of a frame number from a file name as a
  // parameter `frameOf`; the scripts read it with `FileFrame(prefix)`.
  // ---------------------------------------------------------------------

  /** The frame-number reader of the cluster scripts for a given prefix. */
  function FileFrame(prefix: string): string -> Option<nat> {
    name => FrameOf(name, prefix)
  }

  /** The columns of a cluster table row that the analyses use. */
  datatype Row = Row(id: int, size: int, rg: real)

  /** A cluster file: its name and its table. */
  datatype Table = Table(name: string, rows: seq<Row>)

  /** A row tagged with the frame of its file. */
  datatype Tagged = Tagged(frame: int, id: int, size: int, rg: real)

  function Tag(frame: int, rows: seq<Row>): (ts: seq<Tagged>)
    ensures |ts| == |rows|
    ensures forall i :: 0 <= i < |rows| ==> ts[i] == Tagged(frame, rows[i].id, rows[i].size, rows[i].rg)
  {
    seq(|rows|, i requires 0 <= i < |rows| => Tagged(frame, rows[i].id, rows[i].size, rows[i].rg))
  }

  /**
   * `read_cluster_file(path, prefix, skip_by)`: no frame number, or a frame
   * number not divisible by `skip_by`, gives no table; a zero `skip_by`
   * raises on the modulo.
   */
  function ReadTable(t: Table, frameOf: string -> Option<nat>, skip: int): Result<Option<seq<Tagged>>> {
    match frameOf(t.name)
    case None => Ok(None)
    case Some(frame) =>
      if skip == 0 then Err(ZeroDivisionError)
      else if frame % skip != 0 then Ok(None)
      else Ok(Some(Tag(frame, t.rows)))
  }

  /** Every file of the listing has a frame number, so the sort key can be computed. */
  predicate AllFramed(ts: seq<Table>, frameOf: string -> Option<nat>) {
    forall k :: 0 <= k < |ts| ==> frameOf(ts[k].name).Some?
  }

  /** The sort key of the file listing (only meaningful on framed names). */
  function FrameKey(t: Table, frameOf: string -> Option<nat>): real {
    match frameOf(t.name)
    case Some(n) => n as real
    case None => 0.0
  }

  function ByFrame(frameOf: string -> Option<nat>): Table -> real {
    t => FrameKey(t, frameOf)
  }

  function FrameSorted(ts: seq<Table>, frameOf: string -> Option<nat>): seq<Table> {
    SortBy(ts, ByFrame(frameOf))
  }

  /** A file is kept when its frame number is divisible by the skip interval. */
  predicate Qualifies(t: Table, frameOf: string -> Option<nat>, skip: int)
    requires skip != 0
  {
    frameOf(t.name).Some? && frameOf(t.name).value % skip == 0
  }

  /** The tagged rows of the kept files, file after file. */
  function Gathered(ts: seq<Table>, frameOf: string -> Option<nat>, skip: int): seq<Tagged>
    requires skip != 0
  {
    if ts == [] then []
    else
      var n := |ts| - 1;
      Gathered(ts[..n], frameOf, skip) +
        (if Qualifies(ts[n], frameOf, skip) then Tag(frameOf(ts[n].name).value, ts[n].rows) else [])
  }

  /** Number of kept files. */
  function KeptFiles(ts: seq<Table>, frameOf: string -> Option<nat>, skip: int): nat
    requires skip != 0
  {
    if ts == [] then 0
    else KeptFiles(ts[..|ts| - 1], frameOf, skip) + (if Qualifies(ts[|ts| - 1], frameOf, skip) then 1 else 0)
  }

  /**
   * `load_all_clusters` of the loop-and-append scripts: a name without a
   * frame number makes the sort key raise, a zero skip raises on the first
   * file, and otherwise the kept tables are concatenated in frame order
   * (nothing kept gives the empty table).
   */
  function LoadSpec(ts: seq<Table>, frameOf: string -> Option<nat>, skip: int): Result<seq<Tagged>> {
    if !AllFramed(ts, frameOf) then Err(AttributeError)
    else if skip == 0 then (if ts == [] then Ok([]) else Err(ZeroDivisionError))
    else Ok(Gathered(FrameSorted(ts, frameOf), frameOf, skip))
  }

  /** `load_all_clusters(folder, prefix, skip_by)` over the listing `ts` (the loop-and-append form). */
  method LoadAll(ts: seq<Table>, frameOf: string -> Option<nat>, skip: int) returns (r: Result<seq<Tagged>>)
    ensures r == LoadSpec(ts, frameOf, skip)
  {
    for k := 0 to |ts|
      invariant forall j :: 0 <= j < k ==> frameOf(ts[j].name).Some?
    {
      if frameOf(ts[k].name).None? {
        return Err(AttributeError);
      }
    }
    var files := FrameSorted(ts, frameOf);
    SortedFramed(ts, frameOf);
    var rows: seq<Tagged> := [];
    for i := 0 to |files|
      invariant skip != 0 ==> rows == Gathered(files[..i], frameOf, skip)
      invariant skip == 0 ==> i == 0
    {
      assert files[..i + 1][..i] == files[..i];
      var d := ReadTable(files[i], frameOf, skip);
      if d.Err? {
        return Err(d.error);
      }
      if d.value.Some? {
        rows := rows + d.value.value;
      }
    }
    if skip == 0 {
      return Ok([]);
    }
    assert files[..|files|] == files;
    return Ok(rows);
  }

  /** Sorting the listing keeps every file framed when every file was. */
  lemma SortedFramed(ts: seq<Table>, frameOf: string -> Option<nat>)
    requires AllFramed(ts, frameOf)
    ensures AllFramed(FrameSorted(ts, frameOf), frameOf)
  {
    var files := FrameSorted(ts, frameOf);
    SortByMeaning(ts, ByFrame(frameOf));
    forall k | 0 <= k < |files| ensures frameOf(files[k].name).Some? {
      assert files[k] in multiset(files);
      var j :| 0 <= j < |ts| && ts[j] == files[k];
    }
  }

  /**
   * `load_all_clusters` of the simplified script: like `LoadSpec`, except
   * that when files exist but none is kept the concatenation of an empty
   * list raises.
   */
  function LoadSimplified(ts: seq<Table>, frameOf: string -> Option<nat>, skip: int): (r: Result<seq<Tagged>>)
    ensures skip != 0 && AllFramed(ts, frameOf) && ts != [] && KeptFiles(FrameSorted(ts, frameOf), frameOf, skip) == 0 ==>
      r == Err(ValueError)
  {
    if !AllFramed(ts, frameOf) then Err(AttributeError)
    else if ts == [] then Ok([])
    else if skip == 0 then Err(ZeroDivisionError)
    else
      var files := FrameSorted(ts, frameOf);
      if KeptFiles(files, frameOf, skip) == 0 then Err(ValueError)
      else Ok(Gathered(files, frameOf, skip))
  }

  /** Every gathered row carries the frame of a kept file of the listing, and the rows follow the listing. */
  lemma {:induction false} GatheredFrames(ts: seq<Table>, frameOf: string -> Option<nat>, skip: int)
    requires skip != 0
    ensures forall r :: r in Gathered(ts, frameOf, skip) ==>
      exists k :: 0 <= k < |ts| && Qualifies(ts[k], frameOf, skip) && frameOf(ts[k].name).value == r.frame
  {
    if ts != [] {
      var n := |ts| - 1;
      GatheredFrames(ts[..n], frameOf, skip);
      forall r | r in Gathered(ts, frameOf, skip)
        ensures exists k :: 0 <= k < |ts| && Qualifies(ts[k], frameOf, skip) && frameOf(ts[k].name).value == r.frame
      {
        if r in Gathered(ts[..n], frameOf, skip) {
          var k :| 0 <= k < n && Qualifies(ts[..n][k], frameOf, skip) && frameOf(ts[..n][k].name).value == r.frame;
          assert ts[k] == ts[..n][k];
        } else {
          assert Qualifies(ts[n], frameOf, skip);
        }
      }
    }
  }

  /** When no file's key exceeds `b`, no gathered row's frame does. */
  lemma {:induction false} GatheredBelow(ts: seq<Table>, frameOf: string -> Option<nat>, skip: int, b: real)
    requires skip != 0
    requires forall k :: 0 <= k < |ts| ==> FrameKey(ts[k], frameOf) <= b
    ensures forall r :: r in Gathered(ts, frameOf, skip) ==> r.frame as real <= b
  {
    if ts != [] {
      var n := |ts| - 1;
      GatheredBelow(ts[..n], frameOf, skip, b);
      assert FrameKey(ts[n], frameOf) <= b;
    }
  }

  predicate FramesAscend(rows: seq<Tagged>) {
    forall i, j :: 0 <= i < j < |rows| ==> rows[i].frame <= rows[j].frame
  }

  /** Frames of rows gathered from frame-sorted files never decrease. */
  lemma {:induction false} GatheredAscending(ts: seq<Table>, frameOf: string -> Option<nat>, skip: int)
    requires skip != 0 && SortedBy(ts, ByFrame(frameOf))
    ensures FramesAscend(Gathered(ts, frameOf, skip))
  {
    if ts != [] {
      var n := |ts| - 1;
      var key := ByFrame(frameOf);
      assert SortedBy(ts[..n], key);
      GatheredAscending(ts[..n], frameOf, skip);
      var b := FrameKey(ts[n], frameOf);
      forall k | 0 <= k < n ensures FrameKey(ts[..n][k], frameOf) <= b {
        assert key(ts[k]) <= key(ts[n]);
      }
      GatheredBelow(ts[..n], frameOf, skip, b);
      var front := Gathered(ts[..n], frameOf, skip);
      var rows := Gathered(ts, frameOf, skip);
      forall i, j | 0 <= i < j < |rows| ensures rows[i].frame <= rows[j].frame {
        if j >= |front| {
          assert Qualifies(ts[n], frameOf, skip);
          var f := frameOf(ts[n].name).value;
          assert rows[j] == Tag(f, ts[n].rows)[j - |front|];
          assert FrameKey(ts[n], frameOf) == f as real;
          if i < |front| {
            assert rows[i] == front[i] && rows[i] in front;
            assert rows[i].frame as real <= b;
          } else {
            assert rows[i] == Tag(f, ts[n].rows)[i - |front|];
          }
        } else {
          assert rows[i] == front[i] && rows[j] == front[j];
        }
      }
    }
  }

  /**
   * A successful load holds only rows of frames divisible by the skip
   * interval, each from a file carrying that frame, in ascending frame order.
   */
  lemma LoadedMeaning(ts: seq<Table>, frameOf: string -> Option<nat>, skip: int)
    requires LoadSpec(ts, frameOf, skip).Ok? && skip != 0
    ensures FramesAscend(LoadSpec(ts, frameOf, skip).value)
    ensures forall r :: r in LoadSpec(ts, frameOf, skip).value ==>
      r.frame % skip == 0 && exists k :: 0 <= k < |ts| && frameOf(ts[k].name) == Some(r.frame)
  {
    var files := FrameSorted(ts, frameOf);
    var rows := Gathered(files, frameOf, skip);
    assert LoadSpec(ts, frameOf, skip).value == rows;
    SortByMeaning(ts, ByFrame(frameOf));
    GatheredAscending(files, frameOf, skip);
    GatheredFrames(files, frameOf, skip);
    forall r | r in rows
      ensures r.frame % skip == 0 && exists k :: 0 <= k < |ts| && frameOf(ts[k].name) == Some(r.frame)
    {
      var k :| 0 <= k < |files| && Qualifies(files[k], frameOf, skip) && frameOf(files[k].name).value == r.frame;
      assert files[k] in multiset(files);
      assert files[k] in multiset(ts);
      var j :| 0 <= j < |ts| && ts[j] == files[k];
      assert frameOf(ts[j].name) == Some(r.frame);
    }
  }

  // ---------------------------------------------------------------------
  // Size categories (simplified script)
  // ---------------------------------------------------------------------

  datatype Category = FreeF | OneBe | TwoBe | ThreeBe | Polymer

  /** `CATEGORY_ORDER` */
  const Order: seq<Category> := [FreeF, OneBe, TwoBe, ThreeBe, Polymer]

  /** `CATEGORY_MAP[label](size)` */
  predicate Holds(c: Category, size: int) {
    match c
    case FreeF => size == 1
    case OneBe => 3 <= size <= 5
    case TwoBe => size == 9
    case ThreeBe => size == 13
    case Polymer => size >= 17
  }

  /** The first label of `labels` whose predicate holds. */
  function FirstLabel(labels: seq<Category>, size: int): (r: Option<Category>)
    ensures r.Some? ==> r.value in labels && Holds(r.value, size)
    ensures r.None? ==> forall c :: c in labels ==> !Holds(c, size)
  {
    if labels == [] then None
    else if Holds(labels[0], size) then Some(labels[0])
    else FirstLabel(labels[1..], size)
  }

  /** `assign_label(size)` */
  function AssignLabel(size: int): Option<Category> {
    FirstLabel(Order, size)
  }

  /** The size table: 1 is free F, 3 to 5 one Be, 9 two Be, 13 three Be, 17 and up polymer, anything else unlabelled. */
  lemma AssignLabelTable(size: int)
    ensures AssignLabel(size) ==
      if size == 1 then Some(FreeF)
      else if 3 <= size <= 5 then Some(OneBe)
      else if size == 9 then Some(TwoBe)
      else if size == 13 then Some(ThreeBe)
      else if size >= 17 then Some(Polymer)
      else None
  {
    var l5: seq<Category> := [Polymer];
    var l4 := [ThreeBe] + l5;
    var l3 := [TwoBe] + l4;
    var l2 := [OneBe] + l3;
    assert Order == [FreeF] + l2;
    assert l5[1..] == [];
    assert FirstLabel(l5, size) == if size >= 17 then Some(Polymer) else None;
    assert l4[1..] == l5;
    assert FirstLabel(l4, size) == if size == 13 then Some(ThreeBe) else FirstLabel(l5, size);
    assert l3[1..] == l4;
    assert FirstLabel(l3, size) == if size == 9 then Some(TwoBe) else FirstLabel(l4, size);
    assert l2[1..] == l3;
    assert FirstLabel(l2, size) == if 3 <= size <= 5 then Some(OneBe) else FirstLabel(l3, size);
    assert Order[1..] == l2;
  }

  /** The first match in the order wins: no earlier label's predicate holds. */
  lemma {:induction false} FirstLabelFirst(labels: seq<Category>, size: int)
    ensures FirstLabel(labels, size).Some? ==>
      exists i :: 0 <= i < |labels| && labels[i] == FirstLabel(labels, size).value &&
        forall j :: 0 <= j < i ==> !Holds(labels[j], size)
  {
    if labels != [] && !Holds(labels[0], size) {
      FirstLabelFirst(labels[1..], size);
      if FirstLabel(labels, size).Some? {
        var i :| 0 <= i < |labels[1..]| && labels[1..][i] == FirstLabel(labels, size).value &&
          forall j :: 0 <= j < i ==> !Holds(labels[1..][j], size);
        assert labels[i + 1] == labels[1..][i];
        forall j | 0 <= j < i + 1 ensures !Holds(labels[j], size) {
          if j > 0 { assert labels[j] == labels[1..][j - 1]; }
        }
      }
    }
  }

  /** A categorised row: its frame and its label. */
  datatype Labelled = Labelled(frame: int, cat: Category)

  /** `categorize(df)`: label every row, then drop the unlabelled ones. */
  function Categorize(rows: seq<Tagged>): (ls: seq<Labelled>)
    ensures |ls| <= |rows|
  {
    if rows == [] then []
    else
      var n := |rows| - 1;
      Categorize(rows[..n]) +
        (match AssignLabel(rows[n].size) case None => [] case Some(c) => [Labelled(rows[n].frame, c)])
  }

  /** Rows survive categorisation exactly when their size has a label. */
  lemma {:induction false} CategorizeCount(rows: seq<Tagged>)
    ensures |Categorize(rows)| == |rows| - Unlabelled(rows)
  {
    if rows != [] { CategorizeCount(rows[..|rows| - 1]); }
  }

  /** Number of rows whose size has no label. */
  function Unlabelled(rows: seq<Tagged>): (n: nat)
    ensures n <= |rows|
  {
    if rows == [] then 0
    else Unlabelled(rows[..|rows| - 1]) + (if AssignLabel(rows[|rows| - 1].size).None? then 1 else 0)
  }

  function LabelPairs(ls: seq<Labelled>): (ps: seq<(Category, int)>)
    ensures |ps| == |ls|
    ensures forall i :: 0 <= i < |ls| ==> ps[i] == (ls[i].cat, ls[i].frame)
  {
    seq(|ls|, i requires 0 <= i < |ls| => (ls[i].cat, ls[i].frame))
  }

  /** One row of the trend table: the count of each category in `frame`, in `CATEGORY_ORDER`, 0 when absent. */
  function Trend(ls: seq<Labelled>, frame: int): (counts: seq<nat>)
    ensures |counts| == |Order|
  {
    var col := Column(LabelPairs(ls), frame);
    seq(|Order|, i requires 0 <= i < |Order| => CountOf(col, Order[i]))
  }

  /** The trend counts of a frame add up to the number of categorised rows of that frame. */
  lemma TrendSum(ls: seq<Labelled>, frame: int)
    ensures SumCounts(Order, Column(LabelPairs(ls), frame)) == CountOf(Seconds(LabelPairs(ls)), frame)
    ensures forall i :: 0 <= i < |Order| ==> Trend(ls, frame)[i] == CountOf(Column(LabelPairs(ls), frame), Order[i])
  {
    var ps := LabelPairs(ls);
    forall x | x in Firsts(ps) ensures x in Order {
      match x
      case FreeF => assert Order[0] == x;
      case OneBe => assert Order[1] == x;
      case TwoBe => assert Order[2] == x;
      case ThreeBe => assert Order[3] == x;
      case Polymer => assert Order[4] == x;
    }
    ColumnSum(Order, ps, frame);
  }

  // ---------------------------------------------------------------------
  // Per-frame statistics
  // ---------------------------------------------------------------------

  function Frames(rows: seq<Tagged>): (fs: seq<int>)
    ensures |fs| == |rows|
    ensures forall i :: 0 <= i < |rows| ==> fs[i] == rows[i].frame
  {
    seq(|rows|, i requires 0 <= i < |rows| => rows[i].frame)
  }

  /** `compute_time_series_stats` of the count-only script: one (frame, cluster_count) per distinct frame, ascending. */
  function CountStats(rows: seq<Tagged>): (stats: seq<(int, nat)>)
    ensures |stats| == |Ascending(Frames(rows))|
  {
    var keys := Ascending(Frames(rows));
    seq(|keys|, i requires 0 <= i < |keys| => (keys[i], CountOf(Frames(rows), keys[i])))
  }

  /**
   * The statistics list every frame of the table once, in ascending order,
   * each with a count of at least one; the counts add up to the number of rows.
   */
  lemma CountStatsMeaning(rows: seq<Tagged>)
    ensures var stats := CountStats(rows);
      && (forall i, j :: 0 <= i < j < |stats| ==> stats[i].0 < stats[j].0)
      && (forall f :: (exists i :: 0 <= i < |stats| && stats[i].0 == f) <==> f in Frames(rows))
      && (forall i :: 0 <= i < |stats| ==> stats[i].1 >= 1)
      && SumCounts(Ascending(Frames(rows)), Frames(rows)) == |rows|
  {
    var keys := Ascending(Frames(rows));
    var stats := CountStats(rows);
    forall f ensures (exists i :: 0 <= i < |stats| && stats[i].0 == f) <==> f in Frames(rows) {
      if f in keys {
        var i :| 0 <= i < |keys| && keys[i] == f;
        assert stats[i].0 == f;
      }
    }
    forall i | 0 <= i < |stats| ensures stats[i].1 >= 1 {
      assert keys[i] in keys;
    }
    SumCountsAll(keys, Frames(rows));
  }

  function SizePairs(rows: seq<Tagged>): (ps: seq<(int, int)>)
    ensures |ps| == |rows|
    ensures forall i :: 0 <= i < |rows| ==> ps[i] == (rows[i].size, rows[i].frame)
  {
    seq(|rows|, i requires 0 <= i < |rows| => (rows[i].size, rows[i].frame))
  }

  /** The size-by-frame heatmap cell: the number of rows of that size in that frame. */
  function Cell(rows: seq<Tagged>, size: int, frame: int): nat {
    CountOf(SizePairs(rows), (size, frame))
  }

  /** Each heatmap column adds up to that frame's cluster count. */
  lemma HeatmapColumn(rows: seq<Tagged>, frame: int)
    ensures var sizes := Ascending(Firsts(SizePairs(rows)));
      SumCounts(sizes, Column(SizePairs(rows), frame)) == CountOf(Frames(rows), frame)
    ensures forall size :: Cell(rows, size, frame) == CountOf(Column(SizePairs(rows), frame), size)
  {
    var ps := SizePairs(rows);
    assert Seconds(ps) == Frames(rows);
    ColumnSum(Ascending(Firsts(ps)), ps, frame);
    forall size ensures Cell(rows, size, frame) == CountOf(Column(ps, frame), size) {
      CountPairInColumn(ps, size, frame);
    }
  }

  function SumInts(xs: seq<int>): int {
    if xs == [] then 0 else SumInts(xs[..|xs| - 1]) + xs[|xs| - 1]
  }

  /**
   * `max()` of the integer cluster sizes. `MaxReals` below is the same
   * maximum over the real radii of gyration: the language has no ordered
   * type class to state both at once, and the two element types are kept
   * apart rather than converting sizes to reals.
   */
  function MaxInts(xs: seq<int>): (m: int)
    requires xs != []
    ensures m in xs && forall x :: x in xs ==> x <= m
  {
    if |xs| == 1 then xs[0]
    else
      var rest := MaxInts(xs[..|xs| - 1]);
      assert forall x :: x in xs ==> x in xs[..|xs| - 1] || x == xs[|xs| - 1];
      if xs[|xs| - 1] > rest then xs[|xs| - 1] else rest
  }

  /** `max()` of the radii of gyration; see `MaxInts`. */
  function MaxReals(xs: seq<real>): (m: real)
    requires xs != []
    ensures m in xs && forall x :: x in xs ==> x <= m
  {
    if |xs| == 1 then xs[0]
    else
      var rest := MaxReals(xs[..|xs| - 1]);
      assert forall x :: x in xs ==> x in xs[..|xs| - 1] || x == xs[|xs| - 1];
      if xs[|xs| - 1] > rest then xs[|xs| - 1] else rest
  }

  /** A sum is at most the number of terms times the largest. */
  lemma {:induction false} SumAtMostMax(xs: seq<int>, m: int)
    requires forall x :: x in xs ==> x <= m
    ensures SumInts(xs) <= |xs| * m
  {
    if xs != [] {
      var n := |xs| - 1;
      forall x | x in xs[..n] ensures x <= m {
        assert x in xs;
      }
      SumAtMostMax(xs[..n], m);
      assert xs[n] in xs;
      assert |xs| * m == n * m + m;
    }
  }

  /** One row of the full per-frame statistics. */
  datatype FrameStat = FrameStat(frame: int, count: nat, avgSize: real, maxSize: int, maxRg: real)

  function RgPairs(rows: seq<Tagged>): (ps: seq<(real, int)>)
    ensures |ps| == |rows|
    ensures forall i :: 0 <= i < |rows| ==> ps[i] == (rows[i].rg, rows[i].frame)
  {
    seq(|rows|, i requires 0 <= i < |rows| => (rows[i].rg, rows[i].frame))
  }

  /** The statistics of one frame that occurs in the table. */
  function StatOf(rows: seq<Tagged>, frame: int): FrameStat
    requires frame in Frames(rows)
  {
    ColumnSize(SizePairs(rows), frame);
    ColumnSize(RgPairs(rows), frame);
    assert Seconds(SizePairs(rows)) == Frames(rows) && Seconds(RgPairs(rows)) == Frames(rows);
    var sizes := Column(SizePairs(rows), frame);
    var rgs := Column(RgPairs(rows), frame);
    FrameStat(frame, |sizes|, SumInts(sizes) as real / |sizes| as real, MaxInts(sizes), MaxReals(rgs))
  }

  /** `compute_time_series_stats` of the full script: count, mean size, max size and max Rg per frame, ascending. */
  function FullStats(rows: seq<Tagged>): (stats: seq<FrameStat>)
    ensures |stats| == |Ascending(Frames(rows))|
  {
    var keys := Ascending(Frames(rows));
    seq(|keys|, i requires 0 <= i < |keys| => StatOf(rows, keys[i]))
  }

  /** One frame's statistics: at least one cluster, as many as rows of that frame, mean size at most the largest. */
  lemma StatOfMeaning(rows: seq<Tagged>, f: int)
    requires f in Frames(rows)
    ensures var st := StatOf(rows, f);
      st.frame == f && st.count >= 1 && st.count == CountOf(Frames(rows), f) &&
      st.avgSize <= st.maxSize as real
  {
    ColumnSize(SizePairs(rows), f);
    assert Seconds(SizePairs(rows)) == Frames(rows);
    var sizes := Column(SizePairs(rows), f);
    assert sizes != [];
    var mx := MaxInts(sizes);
    SumAtMostMax(sizes, mx);
    MeanAtMostMax(SumInts(sizes), |sizes|, mx);
  }

  /** A total of at most `n` times `m`, shared among `n`, gives at most `m` each. */
  lemma MeanAtMostMax(total: int, n: nat, m: int)
    requires n > 0 && total <= n * m
    ensures total as real / n as real <= m as real
  {
    var t, k := total as real, n as real;
    assert t <= k * m as real;
    var q := t / k;
    assert q * k == t;
    if q > m as real {
      assert (q - m as real) * k > 0.0;
    }
  }

  /**
   * Every listed frame has at least one cluster, its count is the number of
   * its rows, its mean size does not exceed its largest size, and frames
   * ascend strictly.
   */
  lemma FullStatsMeaning(rows: seq<Tagged>)
    ensures var stats := FullStats(rows);
      && (forall i, j :: 0 <= i < j < |stats| ==> stats[i].frame < stats[j].frame)
      && forall i :: 0 <= i < |stats| ==>
           stats[i].frame in Frames(rows) && stats[i].count >= 1 &&
           stats[i].count == CountOf(Frames(rows), stats[i].frame) &&
           stats[i].avgSize <= stats[i].maxSize as real
  {
    var keys := Ascending(Frames(rows));
    var stats := FullStats(rows);
    forall i | 0 <= i < |stats|
      ensures stats[i].frame == keys[i] && keys[i] in Frames(rows)
    {
      assert keys[i] in keys;
      StatOfMeaning(rows, keys[i]);
    }
    forall i | 0 <= i < |stats|
      ensures stats[i].frame in Frames(rows) && stats[i].count >= 1 &&
        stats[i].count == CountOf(Frames(rows), stats[i].frame) &&
        stats[i].avgSize <= stats[i].maxSize as real
    {
      StatOfMeaning(rows, keys[i]);
    }
  }

  /**
   * The analysis of a loaded table: nothing loaded ends the program with
   * status 1 (here `None`) before any statistics are computed.
   */
  function Analyse(rows: seq<Tagged>): (r: Option<seq<FrameStat>>)
    ensures r.None? <==> rows == []
    ensures r.Some? ==> |r.value| >= 1
  {
    if rows == [] then None
    else
      assert rows[0].frame in Frames(rows) && rows[0].frame in Ascending(Frames(rows));
      Some(FullStats(rows))
  }

  // ---------------------------------------------------------------------
  // Duration colouring of stable pairs by end frame
  // ---------------------------------------------------------------------

  /** The colour index of one duration: 0 up to 70, else one past the first range bound it does not exceed, else past all. */
  function ColourOf(v: real, ranges: seq<int>): (c: nat)
    ensures c <= |ranges| + 1
  {
    if v <= 70.0 then 0 else 1 + FirstAtLeast(v, ranges)
  }

  /** Index of the first bound at or above `v`, or the number of bounds. */
  function FirstAtLeast(v: real, ranges: seq<int>): (i: nat)
    ensures i <= |ranges|
    ensures i < |ranges| ==> v <= ranges[i] as real
    ensures forall j :: 0 <= j < i ==> v > ranges[j] as real
  {
    if ranges == [] then 0
    else if v <= ranges[0] as real then 0
    else 1 + FirstAtLeast(v, ranges[1..])
  }

  /** `assign_colors(values, ranges)` */
  method AssignColours(values: seq<real>, ranges: seq<int>) returns (colours: seq<nat>)
    ensures |colours| == |values|
    ensures forall k :: 0 <= k < |values| ==> colours[k] == ColourOf(values[k], ranges)
  {
    colours := [];
    for k := 0 to |values|
      invariant |colours| == k
      invariant forall j :: 0 <= j < k ==> colours[j] == ColourOf(values[j], ranges)
    {
      var value := values[k];
      if value <= 70.0 {
        colours := colours + [0];
      } else {
        var i := 0;
        while i < |ranges| && !(value <= ranges[i] as real)
          invariant 0 <= i <= |ranges|
          invariant forall j :: 0 <= j < i ==> value > ranges[j] as real
        {
          i := i + 1;
        }
        FirstAtLeastUnique(value, ranges, i);
        colours := colours + [i + 1];
      }
    }
  }

  /** The first bound at or above `v` is unique: any index with the two defining properties is it. */
  lemma {:induction false} FirstAtLeastUnique(v: real, ranges: seq<int>, i: nat)
    requires i <= |ranges| && (i < |ranges| ==> v <= ranges[i] as real)
    requires forall j :: 0 <= j < i ==> v > ranges[j] as real
    ensures FirstAtLeast(v, ranges) == i
  {
    if ranges != [] && i > 0 {
      FirstAtLeastUnique(v, ranges[1..], i - 1);
    }
  }

  /**
   * A longer mean duration never gets a smaller colour index (for any bounds,
   * ascending or not, because the first bound at or above a value is taken).
   */
  lemma ColourMonotone(v: real, w: real, ranges: seq<int>)
    requires v <= w
    ensures ColourOf(v, ranges) <= ColourOf(w, ranges)
  {}

  /** `list(map(int, txt.split("-")))` */
  function ParseRanges(txt: string): Result<seq<int>> {
    MapAll(SplitOn(txt, '-'), IntOrError)
  }

  function IntOrError(s: string): Result<int> {
    match ParseInt(s)
    case Some(v) => Ok(v)
    case None => Err(ValueError)
  }

  /** Bounds written with '-' between them read back in order. */
  lemma {:induction false} ParseRangesRoundTrip(bounds: seq<nat>)
    requires bounds != []
    ensures ParseRanges(Join(Spelled(bounds), '-')) == Ok(bounds)
  {
    var fs := Spelled(bounds);
    forall i | 0 <= i < |fs| ensures '-' !in fs[i] {
      assert fs[i] == NatToString(bounds[i]);
      assert IsDigits(fs[i]);
    }
    SplitOnJoin(fs, '-');
    MapAllMeaning(fs, IntOrError);
    var r := MapAll(fs, IntOrError);
    forall i | 0 <= i < |fs| ensures IntOrError(fs[i]) == Ok(bounds[i] as int) {
      ParseIntNatToString(bounds[i]);
    }
    assert r.Ok?;
    assert r.value == bounds;
  }

  function Spelled(ns: seq<nat>): (fs: seq<string>)
    ensures |fs| == |ns|
    ensures forall i :: 0 <= i < |ns| ==> fs[i] == NatToString(ns[i])
  {
    seq(|ns|, i requires 0 <= i < |ns| => NatToString(ns[i]))
  }

  /** A stable-pair record as read back from its CSV: the end frame and the duration. */
  datatype StableRow = StableRow(endFrame: int, duration: int)

  /** One output row: end frame, count, mean duration and colour index. */
  datatype EndRow = EndRow(endFrame: int, count: nat, meanDuration: real, colour: nat)

  function Ends(rs: seq<StableRow>): (es: seq<int>)
    ensures |es| == |rs|
    ensures forall i :: 0 <= i < |rs| ==> es[i] == rs[i].endFrame
  {
    seq(|rs|, i requires 0 <= i < |rs| => rs[i].endFrame)
  }

  function DurationPairs(rs: seq<StableRow>): (ps: seq<(int, int)>)
    ensures |ps| == |rs|
    ensures forall i :: 0 <= i < |rs| ==> ps[i] == (rs[i].duration, rs[i].endFrame)
  {
    seq(|rs|, i requires 0 <= i < |rs| => (rs[i].duration, rs[i].endFrame))
  }

  /** The mean duration of the records ending at `e` (0 when there are none). */
  function MeanDuration(rs: seq<StableRow>, e: int): real {
    var ds := Column(DurationPairs(rs), e);
    if ds == [] then 0.0 else SumInts(ds) as real / |ds| as real
  }

  /** The output table: one row per distinct end frame, ascending, with its count, mean duration and colour. */
  function EndTable(rs: seq<StableRow>, ranges: seq<int>): (rows: seq<EndRow>)
    ensures |rows| == |Ascending(Ends(rs))|
  {
    var keys := Ascending(Ends(rs));
    seq(|keys|, i requires 0 <= i < |keys| =>
      EndRow(keys[i], CountOf(Ends(rs), keys[i]), MeanDuration(rs, keys[i]),
             ColourOf(MeanDuration(rs, keys[i]), ranges)))
  }

  /**
   * The end-frame counts add up to the number of records, each row's count is
   * at least one, the end frames ascend strictly, and every row's colour is
   * that of its own mean duration.
   */
  lemma EndTableMeaning(rs: seq<StableRow>, ranges: seq<int>)
    ensures var rows := EndTable(rs, ranges);
      && (forall i, j :: 0 <= i < j < |rows| ==> rows[i].endFrame < rows[j].endFrame)
      && (forall i :: 0 <= i < |rows| ==> rows[i].count >= 1 && rows[i].colour <= |ranges| + 1)
      && SumCounts(Ascending(Ends(rs)), Ends(rs)) == |rs|
  {
    var keys := Ascending(Ends(rs));
    forall i | 0 <= i < |keys| ensures CountOf(Ends(rs), keys[i]) >= 1 {
      assert keys[i] in keys;
    }
    SumCountsAll(keys, Ends(rs));
  }
}
