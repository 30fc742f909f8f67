// Multi-stage equilibration logs: natural ordering of the stage files and
// concatenation of their time axes with a running offset
// (LAMMPS/Cascade/collect.py and LAMMPS/Cascade/script/steps_collect_all.py).

module LogMerge {
  import opened Wrappers
  import opened Text

  // ------------------------------------------------------------------
  // Natural sort key: `re.split(r'(\d+)', text)`, digit runs as integers
  // ------------------------------------------------------------------

  /** No character of `s` is a digit. */
  predicate NoDigit(s: string) { forall i :: 0 <= i < |s| ==> !IsDigit(s[i]) }

  /**
   * `re.split(r'(\d+)', s)`: text runs (possibly empty) at even positions,
   * the captured digit runs at odd positions. Built one character at a time
   * from the end: a digit joins a digit run that follows it directly.
   */
  function Segments(s: string): seq<string> {
    if s == [] then [""]
    else
      var r := Segments(s[1..]);
      if !IsDigit(s[0]) then [[s[0]] + r[0]] + r[1..]
      else if r[0] == [] && |r| > 1 then ["", [s[0]] + r[1]] + r[2..]
      else ["", [s[0]]] + r
  }

  /** Odd length; even positions hold no digit, odd positions are digit runs. */
  predicate Alternating(segs: seq<string>) {
    |segs| % 2 == 1
    && forall k :: 0 <= k < |segs| ==> (if k % 2 == 0 then NoDigit(segs[k]) else IsDigits(segs[k]))
  }

  lemma {:induction false} SegmentsAlternate(s: string)
    ensures Alternating(Segments(s))
  {
    if s != [] {
      var r := Segments(s[1..]);
      SegmentsAlternate(s[1..]);
      assert NoDigit(r[0]);
      var segs := Segments(s);
      if !IsDigit(s[0]) {
        forall k | 1 <= k < |segs|
          ensures if k % 2 == 0 then NoDigit(segs[k]) else IsDigits(segs[k])
        {
          assert segs[k] == r[k];
        }
      } else if r[0] == [] && |r| > 1 {
        assert IsDigits(r[1]);
        forall k | 2 <= k < |segs|
          ensures if k % 2 == 0 then NoDigit(segs[k]) else IsDigits(segs[k])
        {
          assert segs[k] == r[k];
        }
      } else {
        forall k | 2 <= k < |segs|
          ensures if k % 2 == 0 then NoDigit(segs[k]) else IsDigits(segs[k])
        {
          assert segs[k] == r[k - 2];
        }
      }
    }
  }

  function Concat(segs: seq<string>): string {
    if segs == [] then [] else segs[0] + Concat(segs[1..])
  }

  lemma ConcatCons(x: string, rest: seq<string>)
    ensures Concat([x] + rest) == x + Concat(rest)
  {
    assert ([x] + rest)[1..] == rest;
  }

  /** Splitting loses nothing: the segments put back together give the text. */
  lemma {:induction false} SegmentsConcat(s: string)
    ensures Concat(Segments(s)) == s
  {
    if s != [] {
      var c, r := s[0], Segments(s[1..]);
      SegmentsConcat(s[1..]);
      if !IsDigit(c) {
        ConcatText(c, r);
      } else if r[0] == [] && |r| > 1 {
        ConcatDigitJoined(c, r);
      } else {
        ConcatDigitOpened(c, r);
      }
      assert s == [c] + s[1..];
    }
  }

  lemma ConcatText(c: char, r: seq<string>)
    requires r != []
    ensures Concat([[c] + r[0]] + r[1..]) == [c] + Concat(r)
  {
    var x := Concat(r[1..]);
    assert Concat(r) == r[0] + x by {
      ConcatCons(r[0], r[1..]);
      assert r == [r[0]] + r[1..];
    }
    assert Concat([[c] + r[0]] + r[1..]) == ([c] + r[0]) + x by {
      ConcatCons([c] + r[0], r[1..]);
    }
    ConcatAssoc([c], r[0], x);
  }

  lemma ConcatDigitJoined(c: char, r: seq<string>)
    requires |r| > 1 && r[0] == []
    ensures Concat(["", [c] + r[1]] + r[2..]) == [c] + Concat(r)
  {
    var x := Concat(r[2..]);
    var t := ["", [c] + r[1]] + r[2..];
    assert Concat(r) == r[1] + x by {
      ConcatTwo(r);
    }
    assert Concat(t) == ([c] + r[1]) + x by {
      ConcatTwo(t);
      assert t[2..] == r[2..];
    }
    ConcatAssoc([c], r[1], x);
  }

  lemma ConcatAssoc(a: string, b: string, c: string)
    ensures (a + b) + c == a + (b + c)
  {
  }

  /** With an empty first segment, the text starts at the second. */
  lemma ConcatTwo(r: seq<string>)
    requires |r| > 1 && r[0] == []
    ensures Concat(r) == r[1] + Concat(r[2..])
  {
    assert r[1..][1..] == r[2..];
    assert Concat(r) == [] + Concat(r[1..]);
    assert [] + Concat(r[1..]) == Concat(r[1..]);
  }

  lemma ConcatDigitOpened(c: char, r: seq<string>)
    ensures Concat(["", [c]] + r) == [c] + Concat(r)
  {
    var x := Concat(r);
    assert (["", [c]] + r)[1..] == [[c]] + r;
    ConcatCons([c], r);
    assert Concat(["", [c]] + r) == [] + ([c] + x);
    assert [] + ([c] + x) == [c] + x;
  }

  /** One element of a natural key: an `int` or a (possibly lower-cased) `str`. */
  datatype KeyPart = Txt(s: string) | Num(n: nat)

  function Part(seg: string, lower: bool): KeyPart {
    if IsDigits(seg) then Num(DigitsValue(seg)) else Txt(if lower then Lower(seg) else seg)
  }

  /**
   * `natural_sort_key`: each segment becomes `int(segment)` when it is all
   * digits, else the text itself (lower-cased when `lower`). The result
   * alternates text and number, starting and ending with text.
   */
  function NaturalKey(name: string, lower: bool): seq<KeyPart> {
    var segs := Segments(name);
    seq(|segs|, i requires 0 <= i < |segs| => Part(segs[i], lower))
  }

  lemma NaturalKeyAlternates(name: string, lower: bool)
    ensures var key := NaturalKey(name, lower);
      |key| % 2 == 1 && forall i :: 0 <= i < |key| ==> (key[i].Num? <==> i % 2 == 1)
  {
    var segs := Segments(name);
    SegmentsAlternate(name);
    forall i | 0 <= i < |segs|
      ensures NaturalKey(name, lower)[i].Num? <==> i % 2 == 1
    {
      assert NaturalKey(name, lower)[i] == Part(segs[i], lower);
      if i % 2 == 0 && segs[i] != [] {
        assert !IsDigit(segs[i][0]);
      }
    }
  }

  /** Python's `<` on `str`: code point by code point, a proper prefix first. */
  function StrLess(a: string, b: string): bool {
    if a == [] then b != []
    else if b == [] then false
    else if a[0] != b[0] then a[0] < b[0]
    else StrLess(a[1..], b[1..])
  }

  /** `<` between two key elements; Python raises TypeError for `str` against `int`, which alternating keys never reach. */
  function PartLess(x: KeyPart, y: KeyPart): bool {
    match (x, y)
    case (Txt(a), Txt(b)) => StrLess(a, b)
    case (Num(m), Num(n)) => m < n
    case _ => false
  }

  /** Python's `<` on lists: the first differing element decides, a proper prefix first. */
  function KeyLess(a: seq<KeyPart>, b: seq<KeyPart>): bool {
    if a == [] then b != []
    else if b == [] then false
    else if a[0] != b[0] then PartLess(a[0], b[0])
    else KeyLess(a[1..], b[1..])
  }

  lemma {:induction false} StrLessAsymmetric(a: string, b: string)
    ensures !(StrLess(a, b) && StrLess(b, a))
  {
    if a != [] && b != [] && a[0] == b[0] {
      StrLessAsymmetric(a[1..], b[1..]);
    }
  }

  lemma {:induction false} StrLessTotal(a: string, b: string)
    ensures a == b || StrLess(a, b) || StrLess(b, a)
  {
    if a != [] && b != [] && a[0] == b[0] {
      StrLessTotal(a[1..], b[1..]);
      if a[1..] == b[1..] {
        assert a == [a[0]] + a[1..] && b == [b[0]] + b[1..];
      }
    }
  }

  lemma {:induction false} KeyLessAsymmetric(a: seq<KeyPart>, b: seq<KeyPart>)
    ensures !(KeyLess(a, b) && KeyLess(b, a))
  {
    if a != [] && b != [] {
      if a[0] == b[0] {
        KeyLessAsymmetric(a[1..], b[1..]);
      } else if a[0].Txt? && b[0].Txt? {
        StrLessAsymmetric(a[0].s, b[0].s);
      }
    }
  }

  /** Element kinds agree wherever both keys have an element. */
  predicate SameShape(a: seq<KeyPart>, b: seq<KeyPart>) {
    forall i :: 0 <= i < |a| && i < |b| ==> (a[i].Num? <==> b[i].Num?)
  }

  lemma {:induction false} KeyLessTotal(a: seq<KeyPart>, b: seq<KeyPart>)
    requires SameShape(a, b)
    ensures a == b || KeyLess(a, b) || KeyLess(b, a)
  {
    if a != [] && b != [] {
      if a[0] == b[0] {
        assert SameShape(a[1..], b[1..]) by {
          forall i | 0 <= i < |a[1..]| && i < |b[1..]|
            ensures a[1..][i].Num? <==> b[1..][i].Num?
          {
            assert a[1..][i] == a[i + 1] && b[1..][i] == b[i + 1];
          }
        }
        KeyLessTotal(a[1..], b[1..]);
        if a[1..] == b[1..] {
          assert a == [a[0]] + a[1..] && b == [b[0]] + b[1..];
        }
      } else if a[0].Txt? {
        StrLessTotal(a[0].s, b[0].s);
      }
    }
  }

  /**
   * Any two natural keys can be compared: they never put a `str` against
   * an `int`, and of two different keys one is smaller.
   */
  lemma NaturalKeysComparable(x: string, y: string, lower: bool)
    ensures SameShape(NaturalKey(x, lower), NaturalKey(y, lower))
    ensures var kx, ky := NaturalKey(x, lower), NaturalKey(y, lower);
      kx == ky || KeyLess(kx, ky) || KeyLess(ky, kx)
  {
    NaturalKeyAlternates(x, lower);
    NaturalKeyAlternates(y, lower);
    KeyLessTotal(NaturalKey(x, lower), NaturalKey(y, lower));
  }

  lemma SegmentsOfText(c: char, s: string)
    requires !IsDigit(c)
    ensures Segments([c] + s) == [[c] + Segments(s)[0]] + Segments(s)[1..]
  {
    assert ([c] + s)[1..] == s;
  }

  lemma SegmentsOfDigit(c: char, s: string)
    requires IsDigit(c)
    ensures var r := Segments(s);
      Segments([c] + s) == if r[0] == [] && |r| > 1 then ["", [c] + r[1]] + r[2..] else ["", [c]] + r
  {
    assert ([c] + s)[1..] == s;
  }

  lemma SegmentsExample()
    ensures Segments("x_2") == ["x_", "2", ""] && Segments("x_10") == ["x_", "10", ""]
  {
    SegmentsOfTwo();
    SegmentsOfTen();
  }

  lemma SegmentsOfTwo()
    ensures Segments("x_2") == ["x_", "2", ""]
  {
    SegmentsOfDigit('2', "");
    assert Segments("2") == ["", "2", ""];
    SegmentsOfText('_', "2");
    assert ['_'] + "2" == "_2";
    assert ["", "2", ""][1..] == ["2", ""];
    assert ['_'] + "" == "_";
    assert Segments("_2") == ["_", "2", ""];
    SegmentsOfText('x', "_2");
    assert ['x'] + "_2" == "x_2";
    assert ["_", "2", ""][1..] == ["2", ""];
    assert ['x'] + "_" == "x_";
  }

  lemma SegmentsOfTen()
    ensures Segments("x_10") == ["x_", "10", ""]
  {
    SegmentsOfDigit('0', "");
    assert Segments("0") == ["", "0", ""];
    SegmentsOfDigit('1', "0");
    assert ['1'] + "0" == "10";
    assert Segments("10") == ["", "10", ""];
    SegmentsOfText('_', "10");
    assert ['_'] + "10" == "_10";
    assert ["", "10", ""][1..] == ["10", ""];
    assert ['_'] + "" == "_";
    assert Segments("_10") == ["_", "10", ""];
    SegmentsOfText('x', "_10");
    assert ['x'] + "_10" == "x_10";
    assert ["_", "10", ""][1..] == ["10", ""];
    assert ['x'] + "_" == "x_";
  }

  /** Natural order puts stage 2 before stage 10, which plain string order reverses. */
  lemma NaturalOrderExample()
    ensures KeyLess(NaturalKey("x_2", true), NaturalKey("x_10", true))
    ensures StrLess("x_10", "x_2")
  {
    SegmentsExample();
    assert DigitsValue("10") == 10;
    assert DigitsValue("2") == 2;
    assert IsDigits("2") && IsDigits("10") && !IsDigits("x_");
    assert Lower("x_") == "x_";
    var k2, k10 := NaturalKey("x_2", true), NaturalKey("x_10", true);
    assert k2[0] == Txt("x_") && k2[1] == Num(2);
    assert k10[0] == Txt("x_") && k10[1] == Num(10);
    assert k2[1..][0] == Num(2) && k10[1..][0] == Num(10);
  }

  // ------------------------------------------------------------------
  // `sorted(files, key=natural_sort_key)`
  // ------------------------------------------------------------------

  /** `less` never holds both ways round. */
  ghost predicate Asymmetric<T(!new)>(less: (T, T) -> bool) {
    forall a, b :: !(less(a, b) && less(b, a))
  }

  /** No element is smaller than the one before it. */
  predicate SortedByLess<T>(xs: seq<T>, less: (T, T) -> bool) {
    forall i :: 0 < i < |xs| ==> !less(xs[i], xs[i - 1])
  }

  lemma SortedSnoc<T>(ys: seq<T>, y: T, less: (T, T) -> bool)
    requires SortedByLess(ys, less)
    requires ys == [] || !less(y, ys[|ys| - 1])
    ensures SortedByLess(ys + [y], less)
  {
    forall i | 0 < i < |ys + [y]|
      ensures !less((ys + [y])[i], (ys + [y])[i - 1])
    {
      if i < |ys| {
        assert (ys + [y])[i - 1] == ys[i - 1] && (ys + [y])[i] == ys[i];
      }
    }
  }

  /** Place `x` after the last element that is not greater than it, which keeps equal elements in input order. */
  function InsertByLess<T(!new)>(xs: seq<T>, x: T, less: (T, T) -> bool): (r: seq<T>)
    requires Asymmetric(less) && SortedByLess(xs, less)
    ensures multiset(r) == multiset(xs) + multiset{x}
    ensures SortedByLess(r, less)
    ensures r[|r| - 1] == x || (xs != [] && r[|r| - 1] == xs[|xs| - 1])
  {
    if xs == [] || !less(x, xs[|xs| - 1]) then
      SortedSnoc(xs, x, less);
      xs + [x]
    else
      var init, last := xs[..|xs| - 1], xs[|xs| - 1];
      assert xs == init + [last];
      var ins := InsertByLess(init, x, less);
      SortedSnoc(ins, last, less);
      ins + [last]
  }

  /** Python's `sorted`, which only ever asks `<`: a sorted permutation of the input. */
  function SortByLess<T(!new)>(xs: seq<T>, less: (T, T) -> bool): (r: seq<T>)
    requires Asymmetric(less)
    ensures multiset(r) == multiset(xs)
    ensures SortedByLess(r, less)
  {
    if xs == [] then []
    else
      var init := xs[..|xs| - 1];
      assert xs == init + [xs[|xs| - 1]];
      InsertByLess(SortByLess(init, less), xs[|xs| - 1], less)
  }

  /** `<` on the natural keys of two file names. */
  function NaturalLess(lower: bool): (string, string) -> bool {
    (a: string, b: string) => KeyLess(NaturalKey(a, lower), NaturalKey(b, lower))
  }

  lemma NaturalLessAsymmetric(lower: bool)
    ensures Asymmetric(NaturalLess(lower))
  {
    forall a: string, b: string
      ensures !(NaturalLess(lower)(a, b) && NaturalLess(lower)(b, a))
    {
      KeyLessAsymmetric(NaturalKey(a, lower), NaturalKey(b, lower));
    }
  }

  /** `sorted(files, key=natural_sort_key)`: every name kept, none before one with a smaller key. */
  function SortNatural(names: seq<string>, lower: bool): (r: seq<string>)
    ensures multiset(r) == multiset(names)
    ensures forall i :: 0 < i < |r| ==> !KeyLess(NaturalKey(r[i], lower), NaturalKey(r[i - 1], lower))
  {
    NaturalLessAsymmetric(lower);
    var r := SortByLess(names, NaturalLess(lower));
    assert forall i :: 0 < i < |r| ==> !NaturalLess(lower)(r[i], r[i - 1]);
    r
  }

  // ------------------------------------------------------------------
  // collect.py: load_and_merge_data
  // ------------------------------------------------------------------

  /** A stage file as `np.loadtxt(path, skiprows=1)` returns it: rows of numbers. */
  type Table = seq<seq<real>>

  /**
   * `data[:, 0]` through `data[:, 9]` exist. numpy squeezes a file with
   * fewer than two rows to a flat array, on which `data[:, j]` raises IndexError.
   */
  predicate HasColumns(t: Table) {
    |t| >= 2 && forall r :: r in t ==> |r| >= 10
  }

  /** `data[:, j]` */
  function ColumnOf(t: Table, j: nat): (col: seq<real>)
    requires forall r :: r in t ==> |r| > j
    ensures |col| == |t|
  {
    seq(|t|, i requires 0 <= i < |t| => t[i][j])
  }

  /** `column + offset` */
  function Shift(ts: seq<real>, off: real): (us: seq<real>)
    ensures |us| == |ts|
  {
    seq(|ts|, i requires 0 <= i < |ts| => ts[i] + off)
  }

  function LastOr(ts: seq<real>, default: real): real {
    if ts == [] then default else ts[|ts| - 1]
  }

  /** The six copied series: file columns 4 to 9. */
  datatype Columns = Columns(temp: seq<real>, cEx: seq<real>, cIn: seq<real>,
                             cPKAin: seq<real>, potEng: seq<real>, totEng: seq<real>)

  function Extend(c: Columns, t: Table): Columns
    requires HasColumns(t)
  {
    Columns(c.temp + ColumnOf(t, 4), c.cEx + ColumnOf(t, 5), c.cIn + ColumnOf(t, 6),
            c.cPKAin + ColumnOf(t, 7), c.potEng + ColumnOf(t, 8), c.totEng + ColumnOf(t, 9))
  }

  predicate SameLength(c: Columns, n: nat) {
    |c.temp| == n && |c.cEx| == n && |c.cIn| == n && |c.cPKAin| == n && |c.potEng| == n && |c.totEng| == n
  }

  /** The merged time axis, the copied series and the condition change points. */
  datatype Series = Series(time: seq<real>, data: Columns, changePoints: seq<real>)

  const NoSeries := Series([], Columns([], [], [], [], [], []), [])

  datatype MergeState = MergeState(series: Series, offset: real)

  /** One pass of the loop for the file at list position `idx`; `None` is a file `loadtxt` could not read. */
  function MergeStep(st: MergeState, idx: nat, file: Option<Table>): Result<MergeState> {
    match file
    case None => Ok(st)
    case Some(t) =>
      if !HasColumns(t) then Err(IndexError)
      else
        var current := Shift(ColumnOf(t, 0), st.offset);
        var s := st.series;
        var changes := if idx > 0 then s.changePoints + [st.offset] else s.changePoints;
        Ok(MergeState(Series(s.time + current, Extend(s.data, t), changes), current[|current| - 1]))
  }

  function MergeFiles(files: seq<Option<Table>>): Result<MergeState> {
    if files == [] then Ok(MergeState(NoSeries, 0.0))
    else
      match MergeFiles(files[..|files| - 1])
      case Err(e) => Err(e)
      case Ok(st) => MergeStep(st, |files| - 1, files[|files| - 1])
  }

  /** `load_and_merge_data` on the sorted file list. */
  function LoadAndMerge(files: seq<Option<Table>>): Result<Series> {
    if files == [] then Err(FileNotFoundError)
    else
      match MergeFiles(files)
      case Err(e) => Err(e)
      case Ok(st) => Ok(st.series)
  }

  lemma {:induction false} MergeErrPersists(files: seq<Option<Table>>, k: nat)
    requires k <= |files| && MergeFiles(files[..k]).Err?
    ensures MergeFiles(files) == MergeFiles(files[..k])
  {
    if k < |files| {
      var init := files[..|files| - 1];
      assert init[..k] == files[..k];
      MergeErrPersists(init, k);
    } else {
      assert files[..k] == files;
    }
  }

  method LoadAndMergeData(files: seq<Option<Table>>) returns (r: Result<Series>)
    ensures r == LoadAndMerge(files)
  {
    if files == [] {
      return Err(FileNotFoundError);
    }
    var time: seq<real> := [];
    var data := Columns([], [], [], [], [], []);
    var changePoints: seq<real> := [];
    var offset := 0.0;
    for idx := 0 to |files|
      invariant MergeFiles(files[..idx]) == Ok(MergeState(Series(time, data, changePoints), offset))
    {
      assert files[..idx + 1][..idx] == files[..idx];
      match files[idx] {
        case None =>
        case Some(t) =>
          if !HasColumns(t) {
            MergeErrPersists(files, idx + 1);
            return Err(IndexError);
          }
          var current := Shift(ColumnOf(t, 0), offset);
          time := time + current;
          if idx > 0 {
            changePoints := changePoints + [offset];
          }
          offset := current[|current| - 1];
          data := Extend(data, t);
      }
    }
    assert files[..|files|] == files;
    return Ok(Series(time, data, changePoints));
  }

  /** Number of readable files at list positions after the first. */
  function LoadedAfterFirst(files: seq<Option<Table>>): nat {
    if files == [] then 0
    else LoadedAfterFirst(files[..|files| - 1]) + (if |files| > 1 && files[|files| - 1].Some? then 1 else 0)
  }

  /**
   * What the loop keeps: every series as long as the time axis, the offset
   * equal to the last merged time (0 before any file), one change point per
   * readable file after the first list position.
   */
  lemma {:induction false} MergeInvariant(files: seq<Option<Table>>)
    ensures MergeFiles(files).Ok? ==>
      var st := MergeFiles(files).value;
      SameLength(st.series.data, |st.series.time|)
      && st.offset == LastOr(st.series.time, 0.0)
      && |st.series.changePoints| == LoadedAfterFirst(files)
  {
    if files != [] {
      MergeInvariant(files[..|files| - 1]);
    }
  }

  /**
   * Continuity: a readable file's times are appended shifted by the last
   * merged time, and (after list position 0) that time is recorded as a change point.
   */
  lemma MergeContinues(files: seq<Option<Table>>, t: Table)
    requires MergeFiles(files).Ok? && HasColumns(t)
    ensures var s := MergeFiles(files).value.series;
      var end := LastOr(s.time, 0.0);
      MergeFiles(files + [Some(t)]).Ok?
      && MergeFiles(files + [Some(t)]).value.series.time == s.time + Shift(ColumnOf(t, 0), end)
      && MergeFiles(files + [Some(t)]).value.series.changePoints
         == (if files == [] then s.changePoints else s.changePoints + [end])
  {
    MergeInvariant(files);
    assert (files + [Some(t)])[..|files|] == files;
  }

  /** A file that cannot be read changes nothing. */
  lemma MergeSkips(files: seq<Option<Table>>)
    ensures MergeFiles(files + [None]) == MergeFiles(files)
  {
    assert (files + [None])[..|files|] == files;
  }

  /** The merge fails exactly when there is no file or some readable file lacks two rows or ten columns. */
  lemma {:induction false} MergeFailsIff(files: seq<Option<Table>>)
    ensures LoadAndMerge(files) == Err(FileNotFoundError) <==> files == []
    ensures LoadAndMerge(files).Err? <==>
      files == [] || exists i :: 0 <= i < |files| && Unusable(files[i])
  {
    MergeFailsIffFold(files);
  }

  lemma MergeFailsIffFold(files: seq<Option<Table>>)
    ensures MergeFiles(files).Err? ==> MergeFiles(files) == Err(IndexError)
    ensures MergeFiles(files).Err? <==> exists i :: 0 <= i < |files| && Unusable(files[i])
  {
    MergeErrIsIndex(files);
    MergeErrIffUnusable(files);
  }

  /** A readable file without two rows and ten columns. */
  predicate Unusable(file: Option<Table>) {
    file.Some? && !HasColumns(file.value)
  }

  lemma {:induction false} MergeErrIsIndex(files: seq<Option<Table>>)
    ensures MergeFiles(files).Err? ==> MergeFiles(files) == Err(IndexError)
  {
    if files != [] {
      MergeErrIsIndex(files[..|files| - 1]);
    }
  }

  lemma {:induction false} MergeErrIffUnusable(files: seq<Option<Table>>)
    ensures MergeFiles(files).Err? <==> exists i :: 0 <= i < |files| && Unusable(files[i])
  {
    if files != [] {
      var init := files[..|files| - 1];
      MergeErrIffUnusable(init);
      if exists i :: 0 <= i < |init| && Unusable(init[i]) {
        var i :| 0 <= i < |init| && Unusable(init[i]);
        assert files[i] == init[i];
      }
      if exists i :: 0 <= i < |files| && Unusable(files[i]) {
        var i :| 0 <= i < |files| && Unusable(files[i]);
        if i < |init| {
          assert init[i] == files[i];
        }
      }
    }
  }

  // ------------------------------------------------------------------
  // steps_collect_all.py: the module-level merge loop
  // ------------------------------------------------------------------

  /**
   * One pass of the script's loop. `doubled` selects the offset rule as
   * written (`time_offset += simTime[-1]`, adding an already shifted time to
   * the offset); otherwise the offset becomes the last merged time.
   * A file `loadtxt` cannot read stops the script.
   */
  function StepsStep(st: MergeState, idx: nat, file: Option<Table>, doubled: bool): Result<MergeState> {
    match file
    case None => Err(ValueError)
    case Some(t) =>
      var s := st.series;
      if idx > 0 && s.time == [] then Err(IndexError)
      else
        var offset :=
          if idx == 0 then st.offset
          else if doubled then st.offset + s.time[|s.time| - 1]
          else s.time[|s.time| - 1];
        var changes := if idx > 0 then s.changePoints + [offset] else s.changePoints;
        if !HasColumns(t) then Err(IndexError)
        else Ok(MergeState(Series(s.time + Shift(ColumnOf(t, 0), offset), Extend(s.data, t), changes), offset))
  }

  function StepsFold(files: seq<Option<Table>>, doubled: bool): Result<MergeState> {
    if files == [] then Ok(MergeState(NoSeries, 0.0))
    else
      match StepsFold(files[..|files| - 1], doubled)
      case Err(e) => Err(e)
      case Ok(st) => StepsStep(st, |files| - 1, files[|files| - 1], doubled)
  }

  /** The script's merge with the offset rule as written. */
  function StepsMergeAsWritten(files: seq<Option<Table>>): Result<Series> {
    match StepsFold(files, true)
    case Err(e) => Err(e)
    case Ok(st) => Ok(st.series)
  }

  /** The script's merge with each stage shifted by the previous stage's last merged time. */
  function StepsMerge(files: seq<Option<Table>>): Result<Series> {
    match StepsFold(files, false)
    case Err(e) => Err(e)
    case Ok(st) => Ok(st.series)
  }

  /** `x_min, x_max = simTime[0], simTime[-1]` */
  function XRange(time: seq<real>): Result<(real, real)> {
    if time == [] then Err(IndexError) else Ok((time[0], time[|time| - 1]))
  }

  /** The script's outcome: the merged series and the plotted time range. */
  function StepsCollect(files: seq<Option<Table>>): Result<(Series, (real, real))> {
    match StepsMerge(files)
    case Err(e) => Err(e)
    case Ok(s) =>
      match XRange(s.time)
      case Err(e) => Err(e)
      case Ok(range) => Ok((s, range))
  }

  lemma StepsFoldNext(files: seq<Option<Table>>, idx: nat)
    requires idx < |files| && StepsFold(files[..idx], false).Ok?
    ensures StepsFold(files[..idx + 1], false) == StepsStep(StepsFold(files[..idx], false).value, idx, files[idx], false)
  {
    assert files[..idx + 1][..idx] == files[..idx];
  }

  lemma {:induction false} StepsErrPersists(files: seq<Option<Table>>, k: nat)
    requires k <= |files| && StepsFold(files[..k], false).Err?
    ensures StepsFold(files, false) == StepsFold(files[..k], false)
  {
    if k < |files| {
      var init := files[..|files| - 1];
      assert init[..k] == files[..k];
      StepsErrPersists(init, k);
    } else {
      assert files[..k] == files;
    }
  }

  /** The script: merge every stage, then take the plotted time range. */
  method StepsCollectAll(files: seq<Option<Table>>) returns (r: Result<(Series, (real, real))>)
    ensures r == StepsCollect(files)
  {
    var time: seq<real> := [];
    var data := Columns([], [], [], [], [], []);
    var changePoints: seq<real> := [];
    var offset := 0.0;
    for idx := 0 to |files|
      invariant StepsFold(files[..idx], false) == Ok(MergeState(Series(time, data, changePoints), offset))
    {
      StepsFoldNext(files, idx);
      if files[idx].None? {
        StepsErrPersists(files, idx + 1);
        return Err(ValueError);
      }
      var t := files[idx].value;
      if idx > 0 {
        if time == [] {
          StepsErrPersists(files, idx + 1);
          return Err(IndexError);
        }
        offset := time[|time| - 1];
        changePoints := changePoints + [offset];
      }
      if !HasColumns(t) {
        StepsErrPersists(files, idx + 1);
        return Err(IndexError);
      }
      time := time + Shift(ColumnOf(t, 0), offset);
      data := Extend(data, t);
    }
    assert files[..|files|] == files;
    if time == [] {
      return Err(IndexError);
    }
    return Ok((Series(time, data, changePoints), (time[0], time[|time| - 1])));
  }

  /**
   * With every file readable, the corrected script and `load_and_merge_data`
   * produce the same series, so the continuity of `MergeContinues` holds for it.
   */
  lemma {:induction false} StepsMergeMatchesCollect(files: seq<Option<Table>>)
    requires forall i :: 0 <= i < |files| ==> files[i].Some?
    ensures StepsFold(files, false).Ok? <==> MergeFiles(files).Ok?
    ensures StepsFold(files, false).Ok? ==>
      StepsFold(files, false).value.series == MergeFiles(files).value.series
      && (files != [] ==> StepsFold(files, false).value.series.time != [])
  {
    if files != [] {
      var init := files[..|files| - 1];
      StepsMergeMatchesCollect(init);
      MergeInvariant(init);
    }
  }

  /** A stage file whose time column is `start` then `end`, other columns 0. */
  function TwoRows(start: real, end: real): Table {
    [[start, 0.0, 0.0, 0.0, 0.0, 0.0, 0.0, 0.0, 0.0, 0.0],
     [end, 0.0, 0.0, 0.0, 0.0, 0.0, 0.0, 0.0, 0.0, 0.0]]
  }

  const Stage := Some(TwoRows(0.0, 1.0))

  lemma StageOne(doubled: bool)
    ensures var st := StepsFold([Stage], doubled);
      st.Ok? && st.value.series.time == [0.0, 1.0] && st.value.series.changePoints == [] && st.value.offset == 0.0
  {
    assert [Stage][..0] == [];
    assert ColumnOf(Stage.value, 0) == [0.0, 1.0];
    assert Shift([0.0, 1.0], 0.0) == [0.0, 1.0];
  }

  lemma StageTwo(doubled: bool)
    ensures var st := StepsFold([Stage, Stage], doubled);
      st.Ok? && st.value.series.time == [0.0, 1.0, 1.0, 2.0] && st.value.series.changePoints == [1.0] && st.value.offset == 1.0
  {
    StageOne(doubled);
    assert [Stage, Stage][..1] == [Stage];
    assert ColumnOf(Stage.value, 0) == [0.0, 1.0];
    assert Shift([0.0, 1.0], 1.0) == [1.0, 2.0];
  }

  lemma StageThree(doubled: bool)
    ensures var st := StepsFold([Stage, Stage, Stage], doubled);
      var start := if doubled then 3.0 else 2.0;
      st.Ok? && st.value.series.time == [0.0, 1.0, 1.0, 2.0, start, start + 1.0] && st.value.series.changePoints == [1.0, start]
  {
    StageTwo(doubled);
    assert [Stage, Stage, Stage][..2] == [Stage, Stage];
    assert ColumnOf(Stage.value, 0) == [0.0, 1.0];
    var start := if doubled then 3.0 else 2.0;
    assert Shift([0.0, 1.0], start) == [start, start + 1.0];
  }

  /**
   * Three stages each running from 0 to 1: as written, the third stage
   * starts at 3 although the second ended at 2; with the corrected rule it
   * starts at 2.
   */
  lemma StepsOffsetDoubleCounts()
    ensures var asWritten, corrected := StepsMergeAsWritten([Stage, Stage, Stage]), StepsMerge([Stage, Stage, Stage]);
      asWritten.Ok? && asWritten.value.time == [0.0, 1.0, 1.0, 2.0, 3.0, 4.0] && asWritten.value.changePoints == [1.0, 3.0]
      && corrected.Ok? && corrected.value.time == [0.0, 1.0, 1.0, 2.0, 2.0, 3.0] && corrected.value.changePoints == [1.0, 2.0]
  {
    StageThree(true);
    StageThree(false);
  }
}
