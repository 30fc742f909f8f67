/**
 * Stable F2 pairs: centres of mass of the size-2 clusters of every frame are
 * chained into trajectories by a greedy nearest-neighbour match between
 * consecutive frames; trajectories that last long enough are reported.
 */
module StablePairs {
  import opened Wrappers
  import opened Text
  import opened Geometry
  import opened Sorting

  // ---------------------------------------------------------------------
  // Frame selection
  // ---------------------------------------------------------------------

  /** One `--select` segment: "a-b" is the range a..b, a bare "v" the range v..v. */
  function ParseSegment(seg: string): Result<(int, int)> {
    if '-' in seg then
      var ab := SplitOn(seg, '-');
      if |ab| != 2 then Err(ValueError)
      else
        match (ParseInt(ab[0]), ParseInt(ab[1]))
        case (Some(a), Some(b)) => Ok((a, b))
        case _ => Err(ValueError)
    else
      match ParseInt(seg)
      case Some(v) => Ok((v, v))
      case None => Err(ValueError)
  }

  /** Both spellings of a segment read back as their range. */
  lemma SegmentRoundTrip(a: nat, b: nat)
    ensures ParseSegment(NatToString(a) + ['-'] + NatToString(b)) == Ok((a, b))
    ensures ParseSegment(NatToString(a)) == Ok((a, a))
  {
    var sa, sb := NatToString(a), NatToString(b);
    assert '-' !in sa && '-' !in sb;
    SplitOnJoin([sa, sb], '-');
    assert Join([sa, sb], '-') == sa + ['-'] + sb;
    assert (sa + ['-'] + sb)[|sa|] == '-';
    ParseIntNatToString(a);
    ParseIntNatToString(b);
  }

  /** `parse_select(txt)` */
  method ParseSelect(txt: string) returns (r: Result<seq<(int, int)>>)
    ensures r == MapAll(SplitOn(txt, ','), ParseSegment)
  {
    var segs := SplitOn(txt, ',');
    var rng: seq<(int, int)> := [];
    for i := 0 to |segs|
      invariant MapAll(segs[..i], ParseSegment) == Ok(rng)
    {
      assert segs[..i + 1][..i] == segs[..i];
      var seg := ParseSegment(segs[i]);
      if seg.Err? {
        MapAllErr(segs, ParseSegment, i + 1, seg.error);
        return Err(seg.error);
      }
      rng := rng + [seg.value];
    }
    assert segs[..|segs|] == segs;
    return Ok(rng);
  }

  /** `in_select(frame, ranges)`: `any` over the ranges. */
  function InSelect(frame: int, ranges: seq<(int, int)>): bool {
    ranges != [] &&
    (InSelect(frame, ranges[..|ranges| - 1]) || ranges[|ranges| - 1].0 <= frame <= ranges[|ranges| - 1].1)
  }

  /** A frame is selected iff some range holds it, both ends included. */
  lemma {:induction false} InSelectMeaning(frame: int, ranges: seq<(int, int)>)
    ensures InSelect(frame, ranges) <==> exists k :: 0 <= k < |ranges| && ranges[k].0 <= frame <= ranges[k].1
  {
    if ranges != [] {
      var n := |ranges| - 1;
      InSelectMeaning(frame, ranges[..n]);
      if exists k :: 0 <= k < |ranges| && ranges[k].0 <= frame <= ranges[k].1 {
        var k :| 0 <= k < |ranges| && ranges[k].0 <= frame <= ranges[k].1;
        if k < n { assert ranges[..n][k] == ranges[k]; }
      }
      if InSelect(frame, ranges[..n]) {
        var k :| 0 <= k < n && ranges[..n][k].0 <= frame <= ranges[..n][k].1;
        assert ranges[k] == ranges[..n][k];
      }
    }
  }

  // ---------------------------------------------------------------------
  // Loading the cluster files
  // ---------------------------------------------------------------------

  /** One row of a cluster table: its "Cluster Size" and "Center of Mass" columns. */
  datatype Row = Row(size: int, com: Point)

  /** A cluster file: its name, whether some line carries the quoted column list, and its rows. */
  datatype ClusterFile = ClusterFile(name: string, hasHeader: bool, rows: seq<Row>)

  /** The centres of the size-2 clusters of one frame. */
  datatype Entry = Entry(frame: int, coms: seq<Point>)

  /** The frame number of a file name "prefix.NNN...", if it has one. */
  function FrameOfName(name: string, prefix: string): Option<nat> {
    var p := prefix + ['.'];
    if !StartsWith(name, p) then None
    else
      var d := DigitRun(name[|p|..]);
      if d == [] then None else Some(DigitsValue(d))
  }

  /** The centres of mass of the rows whose cluster size is exactly 2, in row order. */
  function PairCentres(rows: seq<Row>): (coms: seq<Point>)
    ensures |coms| <= |rows|
  {
    if rows == [] then []
    else
      var n := |rows| - 1;
      PairCentres(rows[..n]) + (if rows[n].size == 2 then [rows[n].com] else [])
  }

  /** Each centre comes from a size-2 row, and every size-2 row gives one. */
  lemma {:induction false} PairCentresMeaning(rows: seq<Row>)
    ensures forall c :: c in PairCentres(rows) ==> exists i :: 0 <= i < |rows| && rows[i].size == 2 && rows[i].com == c
    ensures forall i :: 0 <= i < |rows| && rows[i].size == 2 ==> rows[i].com in PairCentres(rows)
  {
    if rows != [] {
      var n := |rows| - 1;
      PairCentresMeaning(rows[..n]);
      forall c | c in PairCentres(rows) ensures exists i :: 0 <= i < |rows| && rows[i].size == 2 && rows[i].com == c {
        if c in PairCentres(rows[..n]) {
          var i :| 0 <= i < n && rows[..n][i].size == 2 && rows[..n][i].com == c;
          assert rows[i] == rows[..n][i];
        }
      }
      forall i | 0 <= i < |rows| && rows[i].size == 2 ensures rows[i].com in PairCentres(rows) {
        if i < n { assert rows[..n][i] == rows[i]; }
      }
    }
  }

  /** What one file contributes: nothing unless its name carries a frame number that is selected and it has a column header. */
  function FileEntry(f: ClusterFile, prefix: string, ranges: seq<(int, int)>): Option<Entry> {
    match FrameOfName(f.name, prefix)
    case None => None
    case Some(frame) =>
      if ranges != [] && !InSelect(frame, ranges) then None
      else if !f.hasHeader then None
      else Some(Entry(frame, PairCentres(f.rows)))
  }

  /** The entries of the files in listing order. */
  function Collected(files: seq<ClusterFile>, prefix: string, ranges: seq<(int, int)>): seq<Entry> {
    if files == [] then []
    else
      var n := |files| - 1;
      Collected(files[..n], prefix, ranges) +
        (match FileEntry(files[n], prefix, ranges) case None => [] case Some(e) => [e])
  }

  function FrameKey(e: Entry): real { e.frame as real }

  /**
   * `load_cluster_COMs(prefix, select_ranges)` over the directory listing
   * `files` (already in name order): the entries, stably sorted by frame.
   */
  method LoadCOMs(files: seq<ClusterFile>, prefix: string, ranges: seq<(int, int)>) returns (entries: seq<Entry>)
    ensures entries == SortBy(Collected(files, prefix, ranges), FrameKey)
  {
    var acc: seq<Entry> := [];
    for k := 0 to |files|
      invariant acc == Collected(files[..k], prefix, ranges)
    {
      assert files[..k + 1][..k] == files[..k];
      var e := FileEntry(files[k], prefix, ranges);
      if e.Some? {
        acc := acc + [e.value];
      }
    }
    assert files[..|files|] == files;
    entries := SortBy(acc, FrameKey);
  }

  /**
   * The loaded entries come in ascending frame order, are exactly the
   * contributing files' entries, and every entry is the size-2 centres of a
   * selected, headed file named after its frame.
   */
  lemma LoadedEntries(files: seq<ClusterFile>, prefix: string, ranges: seq<(int, int)>)
    ensures var es := SortBy(Collected(files, prefix, ranges), FrameKey);
      && (forall i, j :: 0 <= i < j < |es| ==> es[i].frame <= es[j].frame)
      && multiset(es) == multiset(Collected(files, prefix, ranges))
      && forall e :: e in es ==> exists k :: 0 <= k < |files| && FileEntry(files[k], prefix, ranges) == Some(e)
  {
    var c := Collected(files, prefix, ranges);
    var es := SortBy(c, FrameKey);
    SortByMeaning(c, FrameKey);
    forall i, j | 0 <= i < j < |es| ensures es[i].frame <= es[j].frame {
      assert FrameKey(es[i]) <= FrameKey(es[j]);
    }
    CollectedFrom(files, prefix, ranges);
    forall e | e in es ensures exists k :: 0 <= k < |files| && FileEntry(files[k], prefix, ranges) == Some(e) {
      assert e in multiset(es);
      assert e in c;
    }
  }

  lemma {:induction false} CollectedFrom(files: seq<ClusterFile>, prefix: string, ranges: seq<(int, int)>)
    ensures forall e :: e in Collected(files, prefix, ranges) ==>
      exists k :: 0 <= k < |files| && FileEntry(files[k], prefix, ranges) == Some(e)
  {
    if files != [] {
      var n := |files| - 1;
      CollectedFrom(files[..n], prefix, ranges);
      forall e | e in Collected(files, prefix, ranges)
        ensures exists k :: 0 <= k < |files| && FileEntry(files[k], prefix, ranges) == Some(e)
      {
        if e in Collected(files[..n], prefix, ranges) {
          var k :| 0 <= k < n && FileEntry(files[..n][k], prefix, ranges) == Some(e);
          assert files[k] == files[..n][k];
        } else {
          assert FileEntry(files[n], prefix, ranges) == Some(e);
        }
      }
    }
  }

  // ---------------------------------------------------------------------
  // Trajectories
  // ---------------------------------------------------------------------

  /** One matched centre: the frame and the position. */
  datatype Sample = Sample(frame: int, pt: Point)

  /** An open trajectory: the frame and position of its last sample, and its samples. */
  datatype Traj = Traj(last: int, com: Point, history: seq<Sample>)

  /** An emitted stable trajectory. */
  datatype Record = Record(start: int, end: int, duration: nat, com: Point, history: seq<Sample>)

  /** The samples lie in consecutive frames. */
  predicate Contiguous(h: seq<Sample>) {
    forall k :: 0 < k < |h| ==> h[k].frame == h[k - 1].frame + 1
  }

  /** Every trajectory of the list is well formed. */
  predicate AllWell(ts: seq<Traj>) {
    forall k :: 0 <= k < |ts| ==> WellTraj(ts[k])
  }

  predicate WellTraj(t: Traj) {
    |t.history| >= 1 && Contiguous(t.history) &&
    t.last == t.history[|t.history| - 1].frame && t.com == t.history[|t.history| - 1].pt
  }

  predicate WellRecord(r: Record) {
    |r.history| >= 1 && Contiguous(r.history) && r.duration == |r.history| &&
    r.start == r.history[0].frame && r.end == r.history[|r.history| - 1].frame && r.com == r.history[0].pt
  }

  /** A reported trajectory spans exactly `duration` consecutive frames. */
  lemma {:induction false} RecordSpan(r: Record)
    requires WellRecord(r)
    ensures r.end - r.start == r.duration - 1
  {
    ContiguousSpan(r.history);
  }

  lemma {:induction false} ContiguousSpan(h: seq<Sample>)
    requires |h| >= 1 && Contiguous(h)
    ensures h[|h| - 1].frame - h[0].frame == |h| - 1
  {
    if |h| > 1 {
      ContiguousSpan(h[..|h| - 1]);
    }
  }

  /** The stable record of a closed trajectory. */
  function RecordOf(t: Traj): (r: Record)
    requires |t.history| >= 1
  {
    var h := t.history;
    Record(h[0].frame, h[|h| - 1].frame, |h|, h[0].pt, h)
  }

  lemma RecordOfWell(t: Traj)
    requires WellTraj(t)
    ensures WellRecord(RecordOf(t))
  {}

  /** A trajectory may take a centre of `frame` only when it was last seen in the frame before. */
  predicate Eligible(t: Traj, frame: int) { t.last == frame - 1 }

  /**
   * The scan of the trajectories for one centre: the index of the best
   * trajectory so far and its squared distance, starting from the squared
   * threshold; a trajectory replaces the best only when strictly closer.
   */
  function Scan(ts: seq<Traj>, frame: int, pt: Point, cut2: real): (res: (Option<nat>, real))
    ensures res.0.Some? ==> res.0.value < |ts| && Eligible(ts[res.0.value], frame)
  {
    if ts == [] then (None, cut2)
    else
      var n := |ts| - 1;
      var prev := Scan(ts[..n], frame, pt, cut2);
      var d2 := SqDist(ts[n].com, pt);
      if Eligible(ts[n], frame) && d2 < prev.1 then (Some(n), d2) else prev
  }

  /**
   * The nearest eligible trajectory strictly inside the threshold wins, the
   * earliest on ties; when there is none, every eligible trajectory is at
   * least the threshold away.
   */
  lemma {:induction false} NearestWins(ts: seq<Traj>, frame: int, pt: Point, cut2: real)
    ensures var (best, bestd) := Scan(ts, frame, pt, cut2);
      && (best.None? ==> bestd == cut2)
      && (best.None? ==> forall j :: 0 <= j < |ts| && Eligible(ts[j], frame) ==> SqDist(ts[j].com, pt) >= cut2)
      && (best.Some? ==>
            var k := best.value;
            && Eligible(ts[k], frame) && bestd == SqDist(ts[k].com, pt) && bestd < cut2
            && (forall j :: 0 <= j < |ts| && Eligible(ts[j], frame) ==> bestd <= SqDist(ts[j].com, pt))
            && (forall j :: 0 <= j < k && Eligible(ts[j], frame) ==> bestd < SqDist(ts[j].com, pt)))
  {
    if ts != [] {
      var n := |ts| - 1;
      NearestWins(ts[..n], frame, pt, cut2);
      assert forall j :: 0 <= j < n ==> ts[..n][j] == ts[j];
    }
  }

  function Extend(t: Traj, frame: int, pt: Point): Traj {
    Traj(frame, pt, t.history + [Sample(frame, pt)])
  }

  /** The state of the matching pass over the centres of one frame. */
  datatype Matching = Matching(ts: seq<Traj>, matched: seq<bool>, used: set<nat>, deltas: seq<real>)

  /** The centres served in list order, each extending the trajectory its scan picks. */
  function MatchAll(ts0: seq<Traj>, frame: int, centres: seq<Point>, cut2: real): (m: Matching)
    ensures |m.ts| == |m.matched| == |ts0|
    ensures AllWell(ts0) ==> AllWell(m.ts)
  {
    if centres == [] then Matching(ts0, seq(|ts0|, _ => false), {}, [])
    else
      var n := |centres| - 1;
      var m := MatchAll(ts0, frame, centres[..n], cut2);
      var res := Scan(m.ts, frame, centres[n], cut2);
      match res.0
      case None => m
      case Some(k) =>
        ExtendWell(m.ts[k], frame, centres[n]);
        Matching(m.ts[k := Extend(m.ts[k], frame, centres[n])], m.matched[k := true],
                 m.used + {n}, m.deltas + [res.1])
  }
  /** One pass of the matching loop: centre `i` served after the centres before it. */
  lemma MatchStep(ts0: seq<Traj>, frame: int, centres: seq<Point>, cut2: real, i: nat, m0: Matching, m: Matching)
    requires i < |centres| && MatchAll(ts0, frame, centres[..i], cut2) == m0
    requires var res := Scan(m0.ts, frame, centres[i], cut2);
      m == if res.0.None? then m0
           else Matching(m0.ts[res.0.value := Extend(m0.ts[res.0.value], frame, centres[i])], m0.matched[res.0.value := true],
                         m0.used + {i}, m0.deltas + [res.1])
    ensures MatchAll(ts0, frame, centres[..i + 1], cut2) == m
  {
    assert centres[..i + 1][..i] == centres[..i];
  }


  /**
   * After matching, a trajectory is either untouched, or was eligible and
   * got exactly one new sample taken from a centre of this frame; matched
   * trajectories are the extended ones. Only processed centres are used, one
   * squared distance is recorded per match, and the matched squared
   * distances are below the threshold.
   */
  lemma MatchAllShape(ts0: seq<Traj>, frame: int, centres: seq<Point>, cut2: real)
    ensures var m := MatchAll(ts0, frame, centres, cut2);
      && (forall k :: 0 <= k < |ts0| && !m.matched[k] ==> m.ts[k] == ts0[k])
      && (forall k :: 0 <= k < |ts0| && m.matched[k] ==>
            Eligible(ts0[k], frame) && exists i :: 0 <= i < |centres| && m.ts[k] == Extend(ts0[k], frame, centres[i]))
      && (forall i :: i in m.used ==> i < |centres|)
      && |m.deltas| == |m.used|
      && (forall d :: d in m.deltas ==> d < cut2)
  {
    MatchAllKept(ts0, frame, centres, cut2);
    MatchAllExtended(ts0, frame, centres, cut2);
    MatchAllDeltas(ts0, frame, centres, cut2);
  }

  /** A trajectory no centre matched is left as it was. */
  lemma {:induction false} MatchAllKept(ts0: seq<Traj>, frame: int, centres: seq<Point>, cut2: real)
    ensures var m := MatchAll(ts0, frame, centres, cut2);
      forall k :: 0 <= k < |ts0| && !m.matched[k] ==> m.ts[k] == ts0[k]
  {
    if centres != [] {
      MatchAllKept(ts0, frame, centres[..|centres| - 1], cut2);
    }
  }

  /** A matched trajectory was eligible and was extended by one of the centres. */
  lemma {:induction false} MatchAllExtended(ts0: seq<Traj>, frame: int, centres: seq<Point>, cut2: real)
    ensures var m := MatchAll(ts0, frame, centres, cut2);
      forall k :: 0 <= k < |ts0| && m.matched[k] ==>
        Eligible(ts0[k], frame) && exists i :: 0 <= i < |centres| && m.ts[k] == Extend(ts0[k], frame, centres[i])
  {
    if centres != [] {
      var n := |centres| - 1;
      MatchAllExtended(ts0, frame, centres[..n], cut2);
      MatchAllKept(ts0, frame, centres[..n], cut2);
      var m := MatchAll(ts0, frame, centres[..n], cut2);
      var res := Scan(m.ts, frame, centres[n], cut2);
      forall k | 0 <= k < |ts0| && MatchAll(ts0, frame, centres, cut2).matched[k]
        ensures Eligible(ts0[k], frame)
        ensures exists i :: 0 <= i < |centres| && MatchAll(ts0, frame, centres, cut2).ts[k] == Extend(ts0[k], frame, centres[i])
      {
        if res.0 == Some(k) {
          if !m.matched[k] {
            assert m.ts[k] == ts0[k];
          }
          assert MatchAll(ts0, frame, centres, cut2).ts[k] == Extend(ts0[k], frame, centres[n]);
        } else {
          var i :| 0 <= i < n && m.ts[k] == Extend(ts0[k], frame, centres[..n][i]);
          assert centres[..n][i] == centres[i];
        }
      }
    }
  }

  /** Only centres of the frame are used, one match distance each, all within the cutoff. */
  lemma {:induction false} MatchAllDeltas(ts0: seq<Traj>, frame: int, centres: seq<Point>, cut2: real)
    ensures var m := MatchAll(ts0, frame, centres, cut2);
      && (forall i :: i in m.used ==> i < |centres|)
      && |m.deltas| == |m.used|
      && (forall d :: d in m.deltas ==> d < cut2)
  {
    if centres != [] {
      var n := |centres| - 1;
      MatchAllDeltas(ts0, frame, centres[..n], cut2);
      NearestWins(MatchAll(ts0, frame, centres[..n], cut2).ts, frame, centres[n], cut2);
    }
  }


  /** A centre can only extend an eligible trajectory, and an extended one is no longer eligible in the same frame. */
  lemma ExtendedOnce(t: Traj, frame: int, pt: Point)
    ensures !Eligible(Extend(t, frame, pt), frame)
  {}

  /** Sum of the history lengths of trajectories. */
  function TrajSamples(ts: seq<Traj>): nat {
    if ts == [] then 0 else TrajSamples(ts[..|ts| - 1]) + |ts[|ts| - 1].history|
  }

  /** Sum of the history lengths of records. */
  function RecordSamples(rs: seq<Record>): nat {
    if rs == [] then 0 else RecordSamples(rs[..|rs| - 1]) + |rs[|rs| - 1].history|
  }

  lemma {:induction false} TrajSamplesAppend(xs: seq<Traj>, ys: seq<Traj>)
    ensures TrajSamples(xs + ys) == TrajSamples(xs) + TrajSamples(ys)
    decreases |ys|
  {
    if ys == [] {
      assert xs + ys == xs;
    } else {
      var n := |ys| - 1;
      assert (xs + ys)[..|xs + ys| - 1] == xs + ys[..n];
      TrajSamplesAppend(xs, ys[..n]);
    }
  }

  lemma {:induction false} RecordSamplesAppend(xs: seq<Record>, ys: seq<Record>)
    ensures RecordSamples(xs + ys) == RecordSamples(xs) + RecordSamples(ys)
    decreases |ys|
  {
    if ys == [] {
      assert xs + ys == xs;
    } else {
      var n := |ys| - 1;
      assert (xs + ys)[..|xs + ys| - 1] == xs + ys[..n];
      RecordSamplesAppend(xs, ys[..n]);
    }
  }

  /** Replacing one trajectory changes the sample total by the change of its history length. */
  lemma {:induction false} TrajSamplesUpdate(ts: seq<Traj>, k: nat, t: Traj)
    requires k < |ts|
    ensures TrajSamples(ts[k := t]) + |ts[k].history| == TrajSamples(ts) + |t.history|
  {
    var n := |ts| - 1;
    if k == n {
      assert ts[k := t][..n] == ts[..n];
    } else {
      assert ts[k := t][..n] == ts[..n][k := t];
      TrajSamplesUpdate(ts[..n], k, t);
    }
  }

  /** Every match adds exactly one sample. */
  lemma {:induction false} MatchAllSamples(ts0: seq<Traj>, frame: int, centres: seq<Point>, cut2: real)
    ensures var m := MatchAll(ts0, frame, centres, cut2);
      TrajSamples(m.ts) == TrajSamples(ts0) + |m.used| && |m.deltas| == |m.used| &&
      forall i :: i in m.used ==> i < |centres|
  {
    if centres != [] {
      var n := |centres| - 1;
      MatchAllSamples(ts0, frame, centres[..n], cut2);
      var m := MatchAll(ts0, frame, centres[..n], cut2);
      var res := Scan(m.ts, frame, centres[n], cut2);
      if res.0.Some? {
        var k := res.0.value;
        TrajSamplesUpdate(m.ts, k, Extend(m.ts[k], frame, centres[n]));
        assert n !in m.used;
      }
    }
  }

  /** Matching keeps trajectories well formed, and matched ones end at `frame`. */
  lemma {:induction false} MatchAllWell(ts0: seq<Traj>, frame: int, centres: seq<Point>, cut2: real)
    requires AllWell(ts0)
    ensures var m := MatchAll(ts0, frame, centres, cut2);
      AllWell(m.ts) && forall k :: 0 <= k < |m.ts| && m.matched[k] ==> m.ts[k].last == frame
  {
    if centres != [] {
      var n := |centres| - 1;
      MatchAllWell(ts0, frame, centres[..n], cut2);
      var m := MatchAll(ts0, frame, centres[..n], cut2);
      var res := Scan(m.ts, frame, centres[n], cut2);
      NearestWins(m.ts, frame, centres[n], cut2);
      if res.0.Some? {
        ExtendWell(m.ts[res.0.value], frame, centres[n]);
      }
    }
  }

  /** Extending an eligible trajectory keeps it well formed. */
  lemma ExtendWell(t: Traj, frame: int, pt: Point)
    ensures WellTraj(t) && Eligible(t, frame) ==> WellTraj(Extend(t, frame, pt))
  {
    if !(WellTraj(t) && Eligible(t, frame)) { return; }
    var h := t.history + [Sample(frame, pt)];
    forall j | 0 < j < |h| ensures h[j].frame == h[j - 1].frame + 1 {
      if j < |h| - 1 {
        assert h[j] == t.history[j] && h[j - 1] == t.history[j - 1];
      } else {
        assert h[j - 1] == t.history[|t.history| - 1];
      }
    }
  }

  /** The outcome of closing: the trajectories left open and the records emitted. */
  datatype Closing = Closing(open: seq<Traj>, emitted: seq<Record>)

  /** Splits the matched trajectories, which stay open, from the others, which are emitted when long enough. */
  function Close(ts: seq<Traj>, matched: seq<bool>, persist: int): Closing
    requires |matched| == |ts| && AllWell(ts)
  {
    if ts == [] then Closing([], [])
    else
      var n := |ts| - 1;
      var prev := Close(ts[..n], matched[..n], persist);
      if matched[n] then Closing(prev.open + [ts[n]], prev.emitted)
      else if |ts[n].history| >= persist then Closing(prev.open, prev.emitted + [RecordOf(ts[n])])
      else prev
  }

  /** One pass of the closing loop: the trajectory `k` kept, emitted or dropped. */
  lemma CloseStep(ts: seq<Traj>, matched: seq<bool>, persist: int, k: nat)
    requires |matched| == |ts| && AllWell(ts) && k < |ts|
    ensures AllWell(ts[..k]) && AllWell(ts[..k + 1])
    ensures var prev := Close(ts[..k], matched[..k], persist);
      Close(ts[..k + 1], matched[..k + 1], persist) ==
        if matched[k] then Closing(prev.open + [ts[k]], prev.emitted)
        else if |ts[k].history| >= persist then Closing(prev.open, prev.emitted + [RecordOf(ts[k])])
        else prev
  {
    assert ts[..k + 1][..k] == ts[..k] && matched[..k + 1][..k] == matched[..k];
  }

  /** The samples of the trajectories closed too short to be reported. */
  function Dropped(ts: seq<Traj>, matched: seq<bool>, persist: int): nat
    requires |matched| == |ts|
  {
    if ts == [] then 0
    else
      var n := |ts| - 1;
      Dropped(ts[..n], matched[..n], persist) +
        (if !matched[n] && |ts[n].history| < persist then |ts[n].history| else 0)
  }

  /** Closing loses no sample: every trajectory stays open, is emitted or is dropped, exactly once. */
  lemma {:induction false} CloseSamples(ts: seq<Traj>, matched: seq<bool>, persist: int)
    requires |matched| == |ts| && AllWell(ts)
    ensures var c := Close(ts, matched, persist);
      && TrajSamples(c.open) + RecordSamples(c.emitted) + Dropped(ts, matched, persist) == TrajSamples(ts)
      && |c.open| + |c.emitted| <= |ts|
  {
    if ts != [] {
      var n := |ts| - 1;
      CloseSamples(ts[..n], matched[..n], persist);
      var prev := Close(ts[..n], matched[..n], persist);
      if matched[n] {
        TrajSamplesAppend(prev.open, [ts[n]]);
      } else if |ts[n].history| >= persist {
        RecordSamplesAppend(prev.emitted, [RecordOf(ts[n])]);
      }
    }
  }

  /**
   * The trajectories left open are exactly the matched ones; emitted records
   * are well formed and at least `persist` long.
   */
  lemma {:induction false} CloseShape(ts: seq<Traj>, matched: seq<bool>, persist: int)
    requires |matched| == |ts| && AllWell(ts)
    ensures forall k :: 0 <= k < |ts| && matched[k] ==> ts[k] in Close(ts, matched, persist).open
    ensures forall t :: t in Close(ts, matched, persist).open ==> exists k :: 0 <= k < |ts| && matched[k] && ts[k] == t
    ensures forall r :: r in Close(ts, matched, persist).emitted ==> WellRecord(r) && r.duration >= persist
  {
    if ts != [] {
      var n := |ts| - 1;
      CloseShape(ts[..n], matched[..n], persist);
      var prev := Close(ts[..n], matched[..n], persist);
      var c := Close(ts, matched, persist);
      assert c.open == prev.open + (if matched[n] then [ts[n]] else []);
      forall k | 0 <= k < n && matched[k] ensures ts[k] in c.open {
        assert ts[..n][k] == ts[k] && matched[..n][k];
      }
      forall t | t in c.open ensures exists k :: 0 <= k < |ts| && matched[k] && ts[k] == t {
        if t in prev.open {
          var k :| 0 <= k < n && matched[..n][k] && ts[..n][k] == t;
          assert matched[k] && ts[k] == t;
        }
      }
      if !matched[n] && |ts[n].history| >= persist {
        RecordOfWell(ts[n]);
      }
    }
  }

  /** With nothing matched, closing leaves nothing open. */
  lemma {:induction false} NoneOpen(ts: seq<Traj>, persist: int)
    requires AllWell(ts)
    ensures Close(ts, seq(|ts|, _ => false), persist).open == []
  {
    if ts != [] {
      var n := |ts| - 1;
      assert seq(|ts|, _ => false)[..n] == seq(n, _ => false);
      NoneOpen(ts[..n], persist);
    }
  }

  /** One new single-sample trajectory per centre not used by a match, in centre order. */
  function Spawn(frame: int, centres: seq<Point>, used: set<nat>): (ts: seq<Traj>)
    ensures AllWell(ts)
    ensures forall k :: 0 <= k < |ts| ==> ts[k].last == frame && |ts[k].history| == 1
  {
    if centres == [] then []
    else
      var n := |centres| - 1;
      Spawn(frame, centres[..n], used) +
        (if n in used then [] else [Traj(frame, centres[n], [Sample(frame, centres[n])])])
  }

  /** Every centre is either used by a match or starts exactly one trajectory. */
  lemma {:induction false} SpawnCount(frame: int, centres: seq<Point>, used: set<nat>)
    requires forall i :: i in used ==> i < |centres|
    ensures TrajSamples(Spawn(frame, centres, used)) + |used| == |centres|
  {
    if centres != [] {
      var n := |centres| - 1;
      var rest := used - {n};
      SpawnCount(frame, centres[..n], rest);
      assert Spawn(frame, centres[..n], rest) == Spawn(frame, centres[..n], used) by {
        SpawnIgnores(frame, centres[..n], used, n);
      }
      var tail := if n in used then [] else [Traj(frame, centres[n], [Sample(frame, centres[n])])];
      TrajSamplesAppend(Spawn(frame, centres[..n], used), tail);
      UsedSplit(used, n);
      assert TrajSamples(tail) == if n in used then 0 else 1 by {
        assert tail == [] || tail[..0] == [];
      }
    }
  }

  /** Taking one index out of a set of indices. */
  lemma UsedSplit(used: set<nat>, n: nat)
    ensures n in used ==> |used| == |used - {n}| + 1
    ensures n !in used ==> |used| == |used - {n}|
  {
    if n in used {
      assert used == (used - {n}) + {n};
    } else {
      assert used - {n} == used;
    }
  }

  lemma {:induction false} SpawnIgnores(frame: int, centres: seq<Point>, used: set<nat>, x: nat)
    requires x >= |centres|
    ensures Spawn(frame, centres, used - {x}) == Spawn(frame, centres, used)
  {
    if centres != [] {
      SpawnIgnores(frame, centres[..|centres| - 1], used, x);
    }
  }

  /** Sum of `duration - 1` over records: the number of frame-to-frame steps inside stable trajectories. */
  function StepCount(rs: seq<Record>): nat {
    if rs == [] then 0
    else StepCount(rs[..|rs| - 1]) + (if |rs[|rs| - 1].history| >= 1 then |rs[|rs| - 1].history| - 1 else 0)
  }

  /** The squared displacements between consecutive samples of every record, record by record. */
  function StableDeltas(rs: seq<Record>): seq<real> {
    if rs == [] then []
    else StableDeltas(rs[..|rs| - 1]) + HistoryDeltas(rs[|rs| - 1].history)
  }

  function HistoryDeltas(h: seq<Sample>): (ds: seq<real>)
    ensures |ds| == if |h| >= 1 then |h| - 1 else 0
    ensures forall d :: d in ds ==> d >= 0.0
  {
    if |h| <= 1 then []
    else HistoryDeltas(h[..|h| - 1]) + [SqDist(h[|h| - 1].pt, h[|h| - 2].pt)]
  }

  /** `delta_r_stable` has `duration - 1` entries per record. */
  lemma {:induction false} StableDeltasCount(rs: seq<Record>)
    ensures |StableDeltas(rs)| == StepCount(rs)
  {
    if rs != [] { StableDeltasCount(rs[..|rs| - 1]); }
  }

  /**
   * The tracker invariant on the values of its fields: open trajectories well formed and
   * last seen in the latest frame, records long enough, match distances within the cutoff,
   * and every centre consumed either extended a trajectory or started one.
   */
  ghost predicate Consistent(trajs: seq<Traj>, stable: seq<Record>, deltaAll: seq<real>, lastFrame: int,
                             seen: int, dropped: int, started: int, cut2: real, persist: int)
  {
    && AllWell(trajs)
    && (forall k :: 0 <= k < |trajs| ==> trajs[k].last == lastFrame)
    && (forall r :: r in stable ==> WellRecord(r) && r.duration >= persist)
    && seen == TrajSamples(trajs) + RecordSamples(stable) + dropped
    && seen == started + |deltaAll|
    && (forall d :: d in deltaAll ==> d < cut2)
  }

  /** Closing the unmatched trajectories and starting the unused centres keeps the invariant. */
  lemma CloseAndSpawnKeeps(ts: seq<Traj>, stable: seq<Record>, deltaAll: seq<real>, seen: int, dropped: int, started: int,
                           frame: int, centres: seq<Point>, matched: seq<bool>, used: set<nat>, cut2: real, persist: int,
                           ts': seq<Traj>, stable': seq<Record>, seen': int, dropped': int, started': int)
    requires |matched| == |ts| && AllWell(ts)
    requires forall k :: 0 <= k < |ts| && matched[k] ==> ts[k].last == frame
    requires forall r :: r in stable ==> WellRecord(r) && r.duration >= persist
    requires forall d :: d in deltaAll ==> d < cut2
    requires forall i :: i in used ==> i < |centres|
    requires seen + |used| == TrajSamples(ts) + RecordSamples(stable) + dropped
    requires seen + |used| == started + |deltaAll|
    requires ts' == Close(ts, matched, persist).open + Spawn(frame, centres, used)
    requires stable' == stable + Close(ts, matched, persist).emitted
    requires seen' == seen + |centres| && dropped' == dropped + Dropped(ts, matched, persist)
    requires started' == started + (|centres| - |used|)
    ensures Consistent(ts', stable', deltaAll, frame, seen', dropped', started', cut2, persist)
  {
    var c := Close(ts, matched, persist);
    var spawned := Spawn(frame, centres, used);
    assert TrajSamples(spawned) + |used| == |centres| by {
      SpawnCount(frame, centres, used);
    }
    assert forall r :: r in stable + c.emitted ==> WellRecord(r) && r.duration >= persist by {
      CloseShape(ts, matched, persist);
    }
    assert AllWell(c.open + spawned) && forall k :: 0 <= k < |c.open + spawned| ==> (c.open + spawned)[k].last == frame by {
      CloseShape(ts, matched, persist);
      StepWell(ts, matched, c.open, spawned, frame);
    }
    CloseSamples(ts, matched, persist);
    TrajSamplesAppend(c.open, spawned);
    RecordSamplesAppend(stable, c.emitted);
  }

  /**
   * The tracker state of `detect_stable_F2`: the open trajectories, the
   * emitted records and the squared match distances (`delta_r_all`, whose
   * square roots the script stores). The ghost counters account for every
   * centre consumed.
   */
  class Tracker {
    var trajs: seq<Traj>
    var stable: seq<Record>
    var deltaAll: seq<real>
    const cut2: real
    const persist: int
    ghost var lastFrame: int
    ghost var seen: nat
    ghost var dropped: nat
    ghost var started: nat

    ghost predicate Valid()
      reads this
    {
      Consistent(trajs, stable, deltaAll, lastFrame, seen, dropped, started, cut2, persist)
    }

    constructor (trackDist: real, persist: int)
      ensures Valid()
      ensures trajs == [] && stable == [] && deltaAll == []
      ensures cut2 == trackDist * trackDist && this.persist == persist
      ensures seen == 0
    {
      trajs, stable, deltaAll := [], [], [];
      cut2 := trackDist * trackDist;
      this.persist := persist;
      lastFrame, seen, dropped, started := 0, 0, 0, 0;
    }

    /** The scan over the open trajectories for one centre (the innermost loop of the script). */
    method FindBest(ts: seq<Traj>, frame: int, pt: Point) returns (best: Option<nat>, bestd: real)
      ensures (best, bestd) == Scan(ts, frame, pt, cut2)
    {
      best, bestd := None, cut2;
      for k := 0 to |ts|
        invariant (best, bestd) == Scan(ts[..k], frame, pt, cut2)
      {
        assert ts[..k + 1][..k] == ts[..k];
        var d2 := SqDist(ts[k].com, pt);
        if Eligible(ts[k], frame) && d2 < bestd {
          best, bestd := Some(k), d2;
        }
      }
      assert ts[..|ts|] == ts;
    }

    /** The matching pass: each centre in turn extends its nearest eligible trajectory. */
    method MatchCentres(frame: int, centres: seq<Point>) returns (matched: seq<bool>, used: set<nat>)
      modifies this
      ensures var m := MatchAll(old(trajs), frame, centres, cut2);
        trajs == m.ts && matched == m.matched && used == m.used && deltaAll == old(deltaAll) + m.deltas
      ensures stable == old(stable)
      ensures unchanged(this`lastFrame, this`seen, this`dropped, this`started)
    {
      var ts := trajs;
      var deltas: seq<real> := [];
      matched := seq(|ts|, _ => false);
      used := {};
      for i := 0 to |centres|
        invariant MatchAll(old(trajs), frame, centres[..i], cut2) == Matching(ts, matched, used, deltas)
        modifies {}
      {
        var best, bestd := FindBest(ts, frame, centres[i]);
        ghost var m0 := Matching(ts, matched, used, deltas);
        if best.Some? {
          var k := best.value;
          deltas := deltas + [bestd];
          ts := ts[k := Extend(ts[k], frame, centres[i])];
          matched := matched[k := true];
          used := used + {i};
        }
        MatchStep(old(trajs), frame, centres, cut2, i, m0, Matching(ts, matched, used, deltas));
      }
      assert centres[..|centres|] == centres;
      trajs, deltaAll := ts, deltaAll + deltas;
    }

    /** Unmatched trajectories leave the open list; those at least `persist` long are emitted. */
    method CloseUnmatched(matched: seq<bool>)
      requires |matched| == |trajs| && AllWell(trajs)
      modifies this
      ensures var c := Close(old(trajs), matched, persist);
        trajs == c.open && stable == old(stable) + c.emitted
      ensures deltaAll == old(deltaAll)
      ensures unchanged(this`lastFrame, this`seen, this`dropped, this`started)
    {
      var ts := trajs;
      var kept: seq<Traj> := [];
      for k := 0 to |ts|
        invariant var c := Close(ts[..k], matched[..k], persist);
          kept == c.open && stable == old(stable) + c.emitted
        invariant deltaAll == old(deltaAll)
        invariant unchanged(this`lastFrame, this`seen, this`dropped, this`started)
      {
        CloseStep(ts, matched, persist, k);
        if matched[k] {
          kept := kept + [ts[k]];
        } else if |ts[k].history| >= persist {
          stable := stable + [RecordOf(ts[k])];
        }
      }
      assert ts[..|ts|] == ts && matched[..|matched|] == matched;
      trajs := kept;
    }

    /** Every centre not used by a match starts a new one-sample trajectory. */
    method SpawnUnused(frame: int, centres: seq<Point>, used: set<nat>)
      modifies this
      ensures trajs == old(trajs) + Spawn(frame, centres, used)
      ensures stable == old(stable) && deltaAll == old(deltaAll)
      ensures unchanged(this`lastFrame, this`seen, this`dropped, this`started)
    {
      for i := 0 to |centres|
        invariant trajs == old(trajs) + Spawn(frame, centres[..i], used)
        invariant stable == old(stable) && deltaAll == old(deltaAll)
        invariant unchanged(this`lastFrame, this`seen, this`dropped, this`started)
      {
        assert centres[..i + 1][..i] == centres[..i];
        if i !in used {
          trajs := trajs + [Traj(frame, centres[i], [Sample(frame, centres[i])])];
        }
      }
      assert centres[..|centres|] == centres;
    }

    /** One frame of `detect_stable_F2`: match, close, then start new trajectories. */
    method Step(frame: int, centres: seq<Point>)
      requires Valid()
      modifies this
      ensures Valid()
      ensures var m := MatchAll(old(trajs), frame, centres, cut2);
        var c := Close(m.ts, m.matched, persist);
        && trajs == c.open + Spawn(frame, centres, m.used)
        && stable == old(stable) + c.emitted
        && deltaAll == old(deltaAll) + m.deltas
      ensures lastFrame == frame && seen == old(seen) + |centres|
    {
      ghost var ts0 := trajs;
      var matched, used := MatchCentres(frame, centres);
      MatchAllWell(ts0, frame, centres, cut2);
      MatchAllSamples(ts0, frame, centres, cut2);
      assert forall d :: d in deltaAll ==> d < cut2 by {
        MatchAllDeltas(ts0, frame, centres, cut2);
      }
      CloseAndSpawn(frame, centres, matched, used);
    }

    /**
     * The second half of a frame: unmatched trajectories closed (kept when long enough),
     * unused centres started as new trajectories, the counters brought up to date.
     */
    method CloseAndSpawn(frame: int, centres: seq<Point>, matched: seq<bool>, used: set<nat>)
      requires |matched| == |trajs| && AllWell(trajs)
      requires forall k :: 0 <= k < |trajs| && matched[k] ==> trajs[k].last == frame
      requires forall r :: r in stable ==> WellRecord(r) && r.duration >= persist
      requires forall d :: d in deltaAll ==> d < cut2
      requires forall i :: i in used ==> i < |centres|
      requires seen + |used| == TrajSamples(trajs) + RecordSamples(stable) + dropped
      requires seen + |used| == started + |deltaAll|
      modifies this
      ensures Valid()
      ensures var c := Close(old(trajs), matched, persist);
        trajs == c.open + Spawn(frame, centres, used) && stable == old(stable) + c.emitted
      ensures deltaAll == old(deltaAll)
      ensures lastFrame == frame && seen == old(seen) + |centres|
    {
      ghost var ts0, stable0, seen0, dropped0, started0 := trajs, stable, seen, dropped, started;
      SpawnCount(frame, centres, used);
      var lost := Dropped(trajs, matched, persist);
      CloseUnmatched(matched);
      SpawnUnused(frame, centres, used);
      lastFrame, seen, dropped, started := frame, seen + |centres|, dropped + lost, started + (|centres| - |used|);
      CloseAndSpawnKeeps(ts0, stable0, deltaAll, seen0, dropped0, started0, frame, centres, matched, used, cut2, persist,
                         trajs, stable, seen, dropped, started);
    }

    /** The final flush: every open trajectory at least `persist` long is emitted. */
    method Flush()
      requires Valid()
      modifies this
      ensures Valid()
      ensures trajs == [] && deltaAll == old(deltaAll)
      ensures stable == old(stable) + Close(old(trajs), seq(|old(trajs)|, _ => false), persist).emitted
      ensures seen == old(seen)
    {
      ghost var ts0 := trajs;
      var none := seq(|trajs|, _ => false);
      CloseShape(ts0, none, persist);
      CloseSamples(ts0, none, persist);
      NoneOpen(ts0, persist);
      ghost var stable0 := stable;
      CloseUnmatched(none);
      ghost var emitted := stable[|stable0|..];
      assert stable == stable0 + emitted;
      RecordSamplesAppend(stable0, emitted);
      dropped := dropped + Dropped(ts0, none, persist);
    }
  }

  /** After one step every open trajectory is well formed and was last seen in the current frame. */
  lemma StepWell(ts: seq<Traj>, matched: seq<bool>, open: seq<Traj>, spawned: seq<Traj>, frame: int)
    requires |matched| == |ts| && AllWell(ts)
    requires forall k :: 0 <= k < |ts| && matched[k] ==> ts[k].last == frame
    requires forall t :: t in open ==> exists k :: 0 <= k < |ts| && matched[k] && ts[k] == t
    requires AllWell(spawned) && forall k :: 0 <= k < |spawned| ==> spawned[k].last == frame
    ensures AllWell(open + spawned)
    ensures forall k :: 0 <= k < |open + spawned| ==> (open + spawned)[k].last == frame
  {
    var all := open + spawned;
    forall i | 0 <= i < |all| ensures WellTraj(all[i]) && all[i].last == frame {
      if i < |open| {
        assert all[i] in open;
        var k :| 0 <= k < |ts| && matched[k] && ts[k] == all[i];
      } else {
        assert all[i] == spawned[i - |open|];
      }
    }
  }

  /**
   * After a gap (no open trajectory was seen in the previous frame) nothing
   * is extended: every open trajectory is closed and every centre starts a
   * new trajectory.
   */
  lemma {:induction false} GapClosesAll(ts: seq<Traj>, frame: int, centres: seq<Point>, cut2: real)
    requires forall k :: 0 <= k < |ts| ==> !Eligible(ts[k], frame)
    ensures MatchAll(ts, frame, centres, cut2) == Matching(ts, seq(|ts|, _ => false), {}, [])
  {
    if centres != [] {
      var n := |centres| - 1;
      GapClosesAll(ts, frame, centres[..n], cut2);
      NearestWins(ts, frame, centres[n], cut2);
    }
  }

  function TotalCentres(frames: seq<Entry>): nat {
    if frames == [] then 0 else TotalCentres(frames[..|frames| - 1]) + |frames[|frames| - 1].coms|
  }

  /** A frame of matching, closing and spawning leaves only well-formed trajectories open. */
  lemma FrameKeepsWell(ts: seq<Traj>, frame: int, centres: seq<Point>, cut2: real, persist: int)
    requires AllWell(ts)
    ensures var m := MatchAll(ts, frame, centres, cut2);
      AllWell(Close(m.ts, m.matched, persist).open + Spawn(frame, centres, m.used))
  {
    var m := MatchAll(ts, frame, centres, cut2);
    MatchAllWell(ts, frame, centres, cut2);
    CloseShape(m.ts, m.matched, persist);
    StepWell(m.ts, m.matched, Close(m.ts, m.matched, persist).open, Spawn(frame, centres, m.used), frame);
  }

  /** The tracker's open trajectories, records and squared match distances. */
  datatype TrackState = TrackState(trajs: seq<Traj>, stable: seq<Record>, deltas: seq<real>)

  /**
   * The state after the frames have been processed in order, each one by
   * matching its centres, closing the unmatched trajectories and starting
   * a trajectory for every unused centre.
   */
  function Run(frames: seq<Entry>, cut2: real, persist: int): (r: TrackState)
    ensures AllWell(r.trajs)
  {
    if frames == [] then TrackState([], [], [])
    else
      var s := Run(frames[..|frames| - 1], cut2, persist);
      var e := frames[|frames| - 1];
      FrameKeepsWell(s.trajs, e.frame, e.coms, cut2, persist);
      var m := MatchAll(s.trajs, e.frame, e.coms, cut2);
      var c := Close(m.ts, m.matched, persist);
      TrackState(c.open + Spawn(e.frame, e.coms, m.used), s.stable + c.emitted, s.deltas + m.deltas)
  }

  /**
   * The records `detect_stable_F2` returns: those closed during the run, in
   * closing order, then every trajectory still open at the end that is at
   * least `persist` long.
   */
  function Detected(frames: seq<Entry>, cut2: real, persist: int): seq<Record> {
    var s := Run(frames, cut2, persist);
    s.stable + Close(s.trajs, seq(|s.trajs|, _ => false), persist).emitted
  }

  /**
   * `detect_stable_F2(frames_com, track_dist, persist)`: the records are
   * exactly those of the frame-by-frame run and the match distances are the
   * run's. Every record is a well-formed run of consecutive frames at least
   * `persist` long, the records hold at most one sample per centre, there is
   * at most one match distance per centre, and `delta_r_stable` has
   * `duration - 1` entries per record.
   */
  method DetectStable(frames: seq<Entry>, trackDist: real, persist: int)
    returns (stable: seq<Record>, deltaAll: seq<real>, deltaStable: seq<real>)
    ensures stable == Detected(frames, trackDist * trackDist, persist)
    ensures deltaAll == Run(frames, trackDist * trackDist, persist).deltas
    ensures forall r :: r in stable ==> WellRecord(r) && r.duration >= persist && r.end - r.start == r.duration - 1
    ensures RecordSamples(stable) + |deltaAll| <= 2 * TotalCentres(frames)
    ensures RecordSamples(stable) <= TotalCentres(frames) && |deltaAll| <= TotalCentres(frames)
    ensures forall d :: d in deltaAll ==> d < trackDist * trackDist
    ensures deltaStable == StableDeltas(stable) && |deltaStable| == StepCount(stable)
  {
    var tracker := new Tracker(trackDist, persist);
    assert frames[..0] == [];
    for k := 0 to |frames|
      invariant tracker.Valid() && tracker.seen == TotalCentres(frames[..k])
      invariant tracker.cut2 == trackDist * trackDist && tracker.persist == persist
      invariant Run(frames[..k], tracker.cut2, persist) == TrackState(tracker.trajs, tracker.stable, tracker.deltaAll)
    {
      assert frames[..k + 1][..k] == frames[..k];
      tracker.Step(frames[k].frame, frames[k].coms);
    }
    assert frames[..|frames|] == frames;
    tracker.Flush();
    stable, deltaAll := tracker.stable, tracker.deltaAll;
    forall r | r in stable ensures r.end - r.start == r.duration - 1 {
      RecordSpan(r);
    }
    deltaStable := CollectStableDeltas(stable);
    StableDeltasCount(stable);
  }

  /** The closing loop of the script over the stable records and their consecutive samples. */
  method CollectStableDeltas(rs: seq<Record>) returns (ds: seq<real>)
    ensures ds == StableDeltas(rs)
  {
    ds := [];
    for k := 0 to |rs|
      invariant ds == StableDeltas(rs[..k])
    {
      assert rs[..k + 1][..k] == rs[..k];
      var h := rs[k].history;
      ghost var base := ds;
      if |h| >= 1 {
        for i := 1 to |h|
          invariant ds == base + HistoryDeltas(h[..i])
        {
          assert h[..i + 1][..i] == h[..i];
          ds := ds + [SqDist(h[i].pt, h[i - 1].pt)];
        }
        assert h[..|h|] == h;
      }
    }
    assert rs[..|rs|] == rs;
  }
}
