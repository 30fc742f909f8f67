/**
 * Readers of LAMMPS dump files. A dump is a sequence of sections, each opened by a
 * line starting with `ITEM:`; a frame starts with `ITEM: TIMESTEP` followed by the
 * step, and its atoms are the lines after `ITEM: ATOMS` up to the next `ITEM:` line.
 *
 * Two cursor scans are modelled: the per-frame energy totals of the 021 scripts, and
 * the first-atom (PKA) scan of the 002, parse_PKA and displacement scripts.
 */
module LammpsDump {
  import opened Wrappers
  import opened Text
  import opened Geometry

  const TimestepItem: string := "ITEM: TIMESTEP"
  const AtomsItem: string := "ITEM: ATOMS"
  const ItemPrefix: string := "ITEM:"

  predicate IsTimestep(line: string) {
    StartsWith(line, TimestepItem)
  }

  predicate IsAtoms(line: string) {
    StartsWith(line, AtomsItem)
  }

  predicate IsItem(line: string) {
    StartsWith(line, ItemPrefix)
  }

  /** A timestep header is a section header, and an atoms header is not a timestep header. */
  lemma HeaderKinds(line: string)
    ensures IsTimestep(line) ==> IsItem(line)
    ensures IsAtoms(line) ==> !IsTimestep(line)
  {
    if IsTimestep(line) {
      assert line[..5] == line[..14][..5];
      assert TimestepItem[..5] == ItemPrefix;
    }
    if IsAtoms(line) {
      assert line[6] == line[..11][6] == 'A';
    }
  }

  /**
   * `while not lines[i].startswith("ITEM: ATOMS"): i += 1`: the first atoms header at
   * or after `i`, or none when the scan runs off the end (where Python raises `IndexError`).
   */
  function FindAtoms(lines: seq<string>, i: nat): (j: Option<nat>)
    ensures j.Some? ==> i <= j.value < |lines| && IsAtoms(lines[j.value])
    decreases |lines| - i
  {
    if i >= |lines| then None
    else if IsAtoms(lines[i]) then Some(i)
    else FindAtoms(lines, i + 1)
  }

  /** The search finds the first atoms header, and fails only when there is none. */
  lemma {:induction false} FindAtomsFirst(lines: seq<string>, i: nat)
    ensures FindAtoms(lines, i).Some? ==> forall k :: i <= k < FindAtoms(lines, i).value ==> !IsAtoms(lines[k])
    ensures FindAtoms(lines, i).None? ==> forall k :: i <= k < |lines| ==> !IsAtoms(lines[k])
    decreases |lines| - i
  {
    if i < |lines| {
      FindAtomsFirst(lines, i + 1);
    }
  }

  /** `while i < len(lines) and not lines[i].startswith("ITEM:")`: where the atom lines from `i` end. */
  function BlockEnd(lines: seq<string>, i: nat): (e: nat)
    requires i <= |lines|
    ensures i <= e <= |lines|
    decreases |lines| - i
  {
    if i == |lines| || IsItem(lines[i]) then i else BlockEnd(lines, i + 1)
  }

  /** The atom block runs up to the next section header, or to the end of the file. */
  lemma {:induction false} BlockEndFirst(lines: seq<string>, i: nat)
    requires i <= |lines|
    ensures forall k :: i <= k < BlockEnd(lines, i) ==> !IsItem(lines[k])
    ensures BlockEnd(lines, i) < |lines| ==> IsItem(lines[BlockEnd(lines, i)])
    decreases |lines| - i
  {
    if i < |lines| && !IsItem(lines[i]) {
      BlockEndFirst(lines, i + 1);
    }
  }

  /** `int(lines[i + 1].strip())`, the step under a timestep header. */
  function StepAt(lines: seq<string>, i: nat): Result<int> {
    if i + 1 >= |lines| then Err(IndexError)
    else
      match ParseInt(lines[i + 1])
      case None => Err(ValueError)
      case Some(n) => Ok(n)
  }

  // ---------------------------------------------------------------------------
  // Per-frame energy totals (021.system.parse_inner_*)
  // ---------------------------------------------------------------------------

  /** One frame: its step, the totals of token 6 (kinetic) and token 5 (potential), and its atom count. */
  datatype Frame = Frame(step: int, ke: real, pe: real, atoms: nat)

  /** One atom line added to the running sums: `ke_total += float(parts[6])`, then `pe_total += float(parts[5])`. */
  function AddAtom(sums: (real, real), line: string, toReal: RealParser): Result<(real, real)> {
    var parts := Words(line);
    match FloatAt(parts, 6, toReal)
    case Err(e) => Err(e)
    case Ok(ke) =>
      match FloatAt(parts, 5, toReal)
      case Err(e) => Err(e)
      case Ok(pe) => Ok((sums.0 + ke, sums.1 + pe))
  }

  /** The sums over an atom block, line by line. */
  function BlockTotals(block: seq<string>, toReal: RealParser): Result<(real, real)> {
    if block == [] then Ok((0.0, 0.0))
    else
      match BlockTotals(block[..|block| - 1], toReal)
      case Err(e) => Err(e)
      case Ok(sums) => AddAtom(sums, block[|block| - 1], toReal)
  }

  lemma BlockTotalsSnoc(lines: seq<string>, first: nat, e: nat, sums: (real, real), toReal: RealParser)
    requires first <= e < |lines| && BlockTotals(lines[first..e], toReal) == Ok(sums)
    ensures BlockTotals(lines[first..e + 1], toReal) == AddAtom(sums, lines[e], toReal)
  {
    assert lines[first..e + 1][..e - first] == lines[first..e];
  }

  /**
   * The frame whose timestep header is line `i`: its step, the next atoms header after the
   * step line, and the totals of the atom lines up to the next section header, which is
   * where the scan resumes.
   */
  function FrameAt(lines: seq<string>, i: nat, toReal: RealParser): (r: Result<(Frame, nat)>)
    ensures r.Ok? ==> i < r.value.1 <= |lines|
  {
    match StepAt(lines, i)
    case Err(e) => Err(e)
    case Ok(step) =>
      match FindAtoms(lines, i + 2)
      case None => Err(IndexError)
      case Some(j) =>
        var e := BlockEnd(lines, j + 1);
        match BlockTotals(lines[j + 1..e], toReal)
        case Err(err) => Err(err)
        case Ok(sums) => Ok((Frame(step, sums.0, sums.1, e - (j + 1)), e))
  }

  /** The frames the cursor loop of `read_energy_dump` meets from line `i` on. */
  function EnergyFrames(lines: seq<string>, i: nat, toReal: RealParser): Result<seq<Frame>>
    decreases |lines| - i
  {
    if i >= |lines| then Ok([])
    else if !IsTimestep(lines[i]) then EnergyFrames(lines, i + 1, toReal)
    else
      match FrameAt(lines, i, toReal)
      case Err(e) => Err(e)
      case Ok(fe) => Prefixed([fe.0], EnergyFrames(lines, fe.1, toReal))
  }

  /** The values reported for a frame: totals, or per-atom means when averaging a non-empty block. */
  function Reported(f: Frame, average: bool): (real, real) {
    if average && f.atoms > 0 then (f.ke / (f.atoms as real), f.pe / (f.atoms as real)) else (f.ke, f.pe)
  }

  /** The three arrays `read_energy_dump` returns. */
  datatype EnergySeries = EnergySeries(steps: seq<int>, ke: seq<real>, pe: seq<real>)

  function Series(frames: seq<Frame>, average: bool): EnergySeries {
    if frames == [] then EnergySeries([], [], [])
    else
      var s := Series(frames[..|frames| - 1], average);
      var f := frames[|frames| - 1];
      EnergySeries(s.steps + [f.step], s.ke + [Reported(f, average).0], s.pe + [Reported(f, average).1])
  }

  function EnergyDump(lines: seq<string>, average: bool, toReal: RealParser): Result<EnergySeries> {
    match EnergyFrames(lines, 0, toReal)
    case Err(e) => Err(e)
    case Ok(frames) => Ok(Series(frames, average))
  }

  lemma {:induction false} BlockTotalsErr(block: seq<string>, k: nat, e: Error, toReal: RealParser)
    requires k <= |block| && BlockTotals(block[..k], toReal) == Err(e)
    ensures BlockTotals(block, toReal) == Err(e)
    decreases |block| - k
  {
    if k < |block| {
      assert block[..k + 1][..k] == block[..k];
      BlockTotalsErr(block, k + 1, e, toReal);
    } else {
      assert block[..k] == block;
    }
  }

  /** The block scan stops at the first section header. */
  lemma {:induction false} BlockEndAt(lines: seq<string>, i: nat, m: nat)
    requires i <= m <= |lines| && forall k :: i <= k < m ==> !IsItem(lines[k])
    ensures BlockEnd(lines, i) >= m
    ensures (m == |lines| || IsItem(lines[m])) ==> BlockEnd(lines, i) == m
    decreases m - i
  {
    if i < m {
      BlockEndAt(lines, i + 1, m);
    }
  }

  /** A failure inside the atom block is the failure of the whole block. */
  lemma BlockTotalsFailAt(lines: seq<string>, first: nat, m: nat, e: Error, toReal: RealParser)
    requires first <= m <= |lines| && forall k :: first <= k < m ==> !IsItem(lines[k])
    requires BlockTotals(lines[first..m], toReal) == Err(e)
    ensures BlockTotals(lines[first..BlockEnd(lines, first)], toReal) == Err(e)
  {
    BlockEndAt(lines, first, m);
    var end := BlockEnd(lines, first);
    assert lines[first..end][..m - first] == lines[first..m];
    BlockTotalsErr(lines[first..end], m - first, e, toReal);
  }

  /** `while not lines[i].startswith("ITEM: ATOMS"): i += 1`, stopping where Python would raise. */
  method SkipToAtoms(lines: seq<string>, i: nat) returns (j: Option<nat>)
    ensures j == FindAtoms(lines, i)
  {
    var k := i;
    while k < |lines| && !IsAtoms(lines[k])
      invariant i <= k
      invariant FindAtoms(lines, k) == FindAtoms(lines, i)
      decreases |lines| - k
    {
      k := k + 1;
    }
    j := if k < |lines| then Some(k) else None;
  }

  /** The atom loop of `read_energy_dump`: the totals of the block from `first`, and where it ends. */
  method SumAtoms(lines: seq<string>, first: nat, toReal: RealParser) returns (r: Result<(real, real)>, e: nat)
    requires first <= |lines|
    ensures e == BlockEnd(lines, first)
    ensures r == BlockTotals(lines[first..e], toReal)
  {
    var keTotal := 0.0;
    var peTotal := 0.0;
    e := first;
    assert lines[first..e] == [];
    while e < |lines| && !IsItem(lines[e])
      invariant first <= e <= |lines|
      invariant forall k :: first <= k < e ==> !IsItem(lines[k])
      invariant BlockTotals(lines[first..e], toReal) == Ok((keTotal, peTotal))
      decreases |lines| - e
    {
      var next := AddAtom((keTotal, peTotal), lines[e], toReal);
      BlockTotalsSnoc(lines, first, e, (keTotal, peTotal), toReal);
      if next.Err? {
        BlockTotalsFailAt(lines, first, e + 1, next.error, toReal);
        return Err(next.error), BlockEnd(lines, first);
      }
      keTotal, peTotal := next.value.0, next.value.1;
      e := e + 1;
    }
    BlockEndAt(lines, first, e);
    r := Ok((keTotal, peTotal));
  }

  /** The body of the loop of `read_energy_dump` for a timestep header at line `i`. */
  method ReadFrame(lines: seq<string>, i: nat, toReal: RealParser) returns (r: Result<(Frame, nat)>)
    ensures r == FrameAt(lines, i, toReal)
  {
    if i + 1 >= |lines| {
      return Err(IndexError);
    }
    var step := ParseInt(lines[i + 1]);
    if step.None? {
      return Err(ValueError);
    }
    var atoms := SkipToAtoms(lines, i + 2);
    if atoms.None? {
      return Err(IndexError);
    }
    var first := atoms.value + 1;
    var totals, e := SumAtoms(lines, first, toReal);
    if totals.Err? {
      return Err(totals.error);
    }
    r := Ok((Frame(step.value, totals.value.0, totals.value.1, e - first), e));
  }

  /** The loop of `read_energy_dump`, one frame per timestep header it meets. */
  method ReadEnergyDump(lines: seq<string>, average: bool, toReal: RealParser) returns (r: Result<EnergySeries>)
    ensures r == EnergyDump(lines, average, toReal)
  {
    var timesteps: seq<int> := [];
    var keList: seq<real> := [];
    var peList: seq<real> := [];
    ghost var frames: seq<Frame> := [];
    var i := 0;
    PrefixedEmpty(EnergyFrames(lines, 0, toReal));
    while i < |lines|
      invariant i <= |lines|
      invariant EnergyFrames(lines, 0, toReal) == Prefixed(frames, EnergyFrames(lines, i, toReal))
      invariant Series(frames, average) == EnergySeries(timesteps, keList, peList)
      decreases |lines| - i
    {
      if !IsTimestep(lines[i]) {
        i := i + 1;
        continue;
      }
      var read := ReadFrame(lines, i, toReal);
      if read.Err? {
        return Err(read.error);
      }
      var (frame, e) := read.value;
      timesteps := timesteps + [frame.step];
      var keTotal, peTotal := frame.ke, frame.pe;
      if average && frame.atoms > 0 {
        keTotal := keTotal / (frame.atoms as real);
        peTotal := peTotal / (frame.atoms as real);
      }
      keList := keList + [keTotal];
      peList := peList + [peTotal];
      PrefixedSnoc(frames, frame, EnergyFrames(lines, e, toReal));
      assert (frames + [frame])[..|frames|] == frames;
      frames := frames + [frame];
      i := e;
    }
    assert frames + [] == frames;
    r := Ok(EnergySeries(timesteps, keList, peList));
  }

  /** The three returned arrays are aligned: entry k of each belongs to frame k. */
  lemma {:induction false} SeriesAligned(frames: seq<Frame>, average: bool)
    ensures |Series(frames, average).steps| == |frames|
    ensures |Series(frames, average).ke| == |frames|
    ensures |Series(frames, average).pe| == |frames|
    ensures forall k :: 0 <= k < |frames| ==>
      Series(frames, average).steps[k] == frames[k].step &&
      Series(frames, average).ke[k] == Reported(frames[k], average).0 &&
      Series(frames, average).pe[k] == Reported(frames[k], average).1
  {
    if frames != [] {
      SeriesAligned(frames[..|frames| - 1], average);
    }
  }

  /** Averaging divides by the atom count: the per-atom value times the count is the block total. */
  lemma AveragedIsMean(f: Frame)
    ensures f.atoms > 0 ==> Reported(f, true).0 * (f.atoms as real) == f.ke
    ensures f.atoms > 0 ==> Reported(f, true).1 * (f.atoms as real) == f.pe
    ensures f.atoms == 0 ==> Reported(f, true) == (f.ke, f.pe)
    ensures Reported(f, false) == (f.ke, f.pe)
  {
    if f.atoms > 0 {
      var n := f.atoms as real;
      assert (f.ke / n) * n == f.ke;
      assert (f.pe / n) * n == f.pe;
    }
  }

  /** An atom block sums cleanly exactly when every line has seven tokens and tokens 5 and 6 convert. */
  lemma {:induction false} BlockTotalsOk(block: seq<string>, toReal: RealParser)
    ensures BlockTotals(block, toReal).Ok? <==>
      forall k :: 0 <= k < |block| ==>
        |Words(block[k])| > 6 && toReal(Words(block[k])[5]).Some? && toReal(Words(block[k])[6]).Some?
  {
    if block != [] {
      var n := |block| - 1;
      BlockTotalsOk(block[..n], toReal);
      assert forall k :: 0 <= k < n ==> block[..n][k] == block[k];
    }
  }

  /** Timestep headers from line `i` on. */
  function CountTimesteps(lines: seq<string>, i: nat): nat
    decreases |lines| - i
  {
    if i >= |lines| then 0 else (if IsTimestep(lines[i]) then 1 else 0) + CountTimesteps(lines, i + 1)
  }

  lemma {:induction false} NoTimestepsBetween(lines: seq<string>, a: nat, b: nat)
    requires a <= b <= |lines| && forall k :: a <= k < b ==> !IsTimestep(lines[k])
    ensures CountTimesteps(lines, a) == CountTimesteps(lines, b)
    decreases b - a
  {
    if a < b {
      NoTimestepsBetween(lines, a + 1, b);
    }
  }

  /**
   * A dump in which every frame reaches its atoms header before the next frame starts
   * (the value line under a header is not itself a header).
   */
  predicate WellFormedDump(lines: seq<string>) {
    forall i, k :: 0 <= i < k < |lines| && IsTimestep(lines[i]) && IsTimestep(lines[k]) ==>
      FindAtoms(lines, i + 2).Some? && FindAtoms(lines, i + 2).value < k
  }

  /** In a well-formed dump the energy scan yields one frame per timestep header. */
  lemma {:induction false} EnergyFramesPerTimestep(lines: seq<string>, i: nat, toReal: RealParser)
    requires WellFormedDump(lines) && EnergyFrames(lines, i, toReal).Ok?
    ensures |EnergyFrames(lines, i, toReal).value| == CountTimesteps(lines, i)
    decreases |lines| - i
  {
    if i < |lines| {
      if !IsTimestep(lines[i]) {
        EnergyFramesPerTimestep(lines, i + 1, toReal);
      } else {
        var j := FindAtoms(lines, i + 2).value;
        var e := FrameAt(lines, i, toReal).value.1;
        assert e == BlockEnd(lines, j + 1);
        FindAtomsFirst(lines, i + 2);
        BlockEndFirst(lines, j + 1);
        forall k | i + 1 <= k < e
          ensures !IsTimestep(lines[k])
        {
          HeaderKinds(lines[k]);
          HeaderKinds(lines[j]);
        }
        NoTimestepsBetween(lines, i + 1, e);
        EnergyFramesPerTimestep(lines, e, toReal);
      }
    }
  }

  // ---------------------------------------------------------------------------
  // First-atom scans (002.pka_energy_small, parse_PKA_energy_dissipation,
  // 1.plot_displacement_vs_time)
  // ---------------------------------------------------------------------------

  datatype Sample<T> = Sample(step: int, value: T)

  /**
   * The cursor scan that reads, for each timestep header, the step and the first line
   * after the next atoms header, converted by `extract`; the scan resumes on that line.
   */
  function FirstAtoms<T>(lines: seq<string>, i: nat, extract: seq<string> -> Result<T>): Result<seq<Sample<T>>>
    decreases |lines| - i
  {
    if i >= |lines| then Ok([])
    else if !IsTimestep(lines[i]) then FirstAtoms(lines, i + 1, extract)
    else
      match StepAt(lines, i)
      case Err(e) => Err(e)
      case Ok(step) =>
        match FindAtoms(lines, i)
        case None => Err(IndexError)
        case Some(j) =>
          if j + 1 >= |lines| then Err(IndexError)
          else
            match extract(Words(lines[j + 1]))
            case Err(e) => Err(e)
            case Ok(v) => Prefixed([Sample(step, v)], FirstAtoms(lines, j + 1, extract))
  }

  function StepsOf<T>(ss: seq<Sample<T>>): seq<int> {
    seq(|ss|, k requires 0 <= k < |ss| => ss[k].step)
  }

  function ValuesOf<T>(ss: seq<Sample<T>>): seq<T> {
    seq(|ss|, k requires 0 <= k < |ss| => ss[k].value)
  }

  lemma SamplesSnoc<T>(ss: seq<Sample<T>>, s: Sample<T>)
    ensures StepsOf(ss + [s]) == StepsOf(ss) + [s.step]
    ensures ValuesOf(ss + [s]) == ValuesOf(ss) + [s.value]
  {
  }

  /** The shared cursor loop: `timesteps` and the per-frame values, appended side by side. */
  method ScanFirstAtoms<T>(lines: seq<string>, extract: seq<string> -> Result<T>)
    returns (r: Result<(seq<int>, seq<T>)>)
    ensures FirstAtoms(lines, 0, extract).Err? ==> r == Err(FirstAtoms(lines, 0, extract).error)
    ensures FirstAtoms(lines, 0, extract).Ok? ==>
      r == Ok((StepsOf(FirstAtoms(lines, 0, extract).value), ValuesOf(FirstAtoms(lines, 0, extract).value)))
  {
    var timesteps: seq<int> := [];
    var values: seq<T> := [];
    ghost var samples: seq<Sample<T>> := [];
    var i := 0;
    PrefixedEmpty(FirstAtoms(lines, 0, extract));
    while i < |lines|
      invariant i <= |lines|
      invariant FirstAtoms(lines, 0, extract) == Prefixed(samples, FirstAtoms(lines, i, extract))
      invariant timesteps == StepsOf(samples) && values == ValuesOf(samples)
      decreases |lines| - i
    {
      if IsTimestep(lines[i]) {
        ghost var header := i;
        if i + 1 >= |lines| {
          return Err(IndexError);
        }
        var step := ParseInt(lines[i + 1]);
        if step.None? {
          return Err(ValueError);
        }
        timesteps := timesteps + [step.value];
        while i < |lines| && !IsAtoms(lines[i])
          invariant header <= i <= |lines|
          invariant FindAtoms(lines, i) == FindAtoms(lines, header)
          decreases |lines| - i
        {
          i := i + 1;
        }
        if i + 1 >= |lines| {
          return Err(IndexError);
        }
        var v := extract(Words(lines[i + 1]));
        if v.Err? {
          return Err(v.error);
        }
        values := values + [v.value];
        SamplesSnoc(samples, Sample(step.value, v.value));
        PrefixedSnoc(samples, Sample(step.value, v.value), FirstAtoms(lines, i + 1, extract));
        samples := samples + [Sample(step.value, v.value)];
      }
      i := i + 1;
    }
    assert samples + [] == samples;
    r := Ok((timesteps, values));
  }

  /** In a well-formed dump the first-atom scan yields one sample per timestep header. */
  lemma {:induction false} FirstAtomsPerTimestep<T>(lines: seq<string>, i: nat, extract: seq<string> -> Result<T>)
    requires WellFormedDump(lines) && FirstAtoms(lines, i, extract).Ok?
    ensures |FirstAtoms(lines, i, extract).value| == CountTimesteps(lines, i)
    decreases |lines| - i
  {
    if i < |lines| {
      if !IsTimestep(lines[i]) {
        FirstAtomsPerTimestep(lines, i + 1, extract);
      } else {
        var j := FindAtoms(lines, i).value;
        FindAtomsFirst(lines, i);
        FindAtomsFirst(lines, i + 2);
        forall k | i + 1 <= k < j + 1
          ensures !IsTimestep(lines[k])
        {
          if IsTimestep(lines[k]) {
            assert false;
          }
        }
        NoTimestepsBetween(lines, i + 1, j + 1);
        FirstAtomsPerTimestep(lines, j + 1, extract);
      }
    }
  }

  /** `np.array(timesteps) * timestep_fs * 0.001`: steps to picoseconds. */
  function TimePs(steps: seq<int>, timestepFs: real): seq<real> {
    seq(|steps|, k requires 0 <= k < |steps| => steps[k] as real * timestepFs * 0.001)
  }

  /** `time_ps - time_ps[0]`; indexing an empty array is an `IndexError`. */
  function ResetTime(t: seq<real>): (r: Result<seq<real>>)
    ensures r.Ok? <==> t != []
  {
    if t == [] then Err(IndexError) else Ok(seq(|t|, k requires 0 <= k < |t| => t[k] - t[0]))
  }

  /** Resetting makes the first time exactly 0 and keeps every difference between times. */
  lemma ResetTimeMeaning(t: seq<real>)
    requires t != []
    ensures ResetTime(t).value[0] == 0.0
    ensures forall j, k :: 0 <= j < |t| && 0 <= k < |t| ==>
      ResetTime(t).value[k] - ResetTime(t).value[j] == t[k] - t[j]
  {
  }

  /** KE and PE of the PKA: `float(atom_line[5])`, then `float(atom_line[6])`. */
  function PkaValues(toReal: RealParser): seq<string> -> Result<(real, real)> {
    parts =>
      match FloatAt(parts, 5, toReal)
      case Err(e) => Err(e)
      case Ok(ke) =>
        match FloatAt(parts, 6, toReal)
        case Err(e) => Err(e)
        case Ok(pe) => Ok((ke, pe))
  }

  /** The three arrays returned by the PKA energy readers. */
  datatype PkaSeries = PkaSeries(timePs: seq<real>, ke: seq<real>, pe: seq<real>)

  function Firsts(vs: seq<(real, real)>): seq<real> {
    seq(|vs|, k requires 0 <= k < |vs| => vs[k].0)
  }

  function Seconds(vs: seq<(real, real)>): seq<real> {
    seq(|vs|, k requires 0 <= k < |vs| => vs[k].1)
  }

  /** `read_energy_dump` of the PKA scripts: times in ps, optionally reset to start at 0. */
  function PkaEnergy(lines: seq<string>, timestepFs: real, resetTime: bool, toReal: RealParser): Result<PkaSeries> {
    match FirstAtoms(lines, 0, PkaValues(toReal))
    case Err(e) => Err(e)
    case Ok(ss) =>
      var t := TimePs(StepsOf(ss), timestepFs);
      var vs := ValuesOf(ss);
      if resetTime then
        match ResetTime(t)
        case Err(e) => Err(e)
        case Ok(t0) => Ok(PkaSeries(t0, Firsts(vs), Seconds(vs)))
      else Ok(PkaSeries(t, Firsts(vs), Seconds(vs)))
  }

  /** The PKA energy reader; without `resetTime` it is also parse_PKA_energy_dissipation.py's reader. */
  method ReadPkaEnergy(lines: seq<string>, timestepFs: real, resetTime: bool, toReal: RealParser)
    returns (r: Result<PkaSeries>)
    ensures r == PkaEnergy(lines, timestepFs, resetTime, toReal)
    ensures r.Ok? ==> |r.value.timePs| == |r.value.ke| == |r.value.pe|
  {
    var scan := ScanFirstAtoms(lines, PkaValues(toReal));
    if scan.Err? {
      return Err(scan.error);
    }
    var (timesteps, values) := scan.value;
    var timePs := TimePs(timesteps, timestepFs);
    if resetTime {
      var reset := ResetTime(timePs);
      if reset.Err? {
        return Err(reset.error);
      }
      timePs := reset.value;
    }
    r := Ok(PkaSeries(timePs, Firsts(values), Seconds(values)));
  }

  /** `map(float, atom_line[2:5])` unpacked into three coordinates. */
  function PositionOf(toReal: RealParser): seq<string> -> Result<Point> {
    parts =>
      if |parts| < 5 then Err(ValueError)
      else
        match Float(parts[2], toReal)
        case Err(e) => Err(e)
        case Ok(x) =>
          match Float(parts[3], toReal)
          case Err(e) => Err(e)
          case Ok(y) =>
            match Float(parts[4], toReal)
            case Err(e) => Err(e)
            case Ok(z) => Ok(Point(x, y, z))
  }

  /** Squared distance of every position from the first; no position is an `IndexError`. */
  function SqDisplacements(ps: seq<Point>): (r: Result<seq<real>>)
    ensures r.Ok? <==> ps != []
    ensures r.Ok? ==> |r.value| == |ps| && r.value[0] == 0.0
    ensures r.Ok? ==> forall k :: 0 <= k < |ps| ==> r.value[k] >= 0.0
  {
    if ps == [] then Err(IndexError)
    else Ok(seq(|ps|, k requires 0 <= k < |ps| => SqDist(ps[k], ps[0])))
  }

  datatype DisplacementSeries = DisplacementSeries(timePs: seq<real>, sqDisplacement: seq<real>)

  function DumpDisplacement(lines: seq<string>, timestepFs: real, toReal: RealParser): Result<DisplacementSeries> {
    match FirstAtoms(lines, 0, PositionOf(toReal))
    case Err(e) => Err(e)
    case Ok(ss) =>
      match SqDisplacements(ValuesOf(ss))
      case Err(e) => Err(e)
      case Ok(d) => Ok(DisplacementSeries(TimePs(StepsOf(ss), timestepFs), d))
  }

  /** `read_dump_displacement`, with the norm kept squared. */
  method ReadDumpDisplacement(lines: seq<string>, timestepFs: real, toReal: RealParser)
    returns (r: Result<DisplacementSeries>)
    ensures r == DumpDisplacement(lines, timestepFs, toReal)
    ensures r.Ok? ==> |r.value.timePs| == |r.value.sqDisplacement|
  {
    var scan := ScanFirstAtoms(lines, PositionOf(toReal));
    if scan.Err? {
      return Err(scan.error);
    }
    var (timesteps, positions) := scan.value;
    var d := SqDisplacements(positions);
    if d.Err? {
      return Err(d.error);
    }
    r := Ok(DisplacementSeries(TimePs(timesteps, timestepFs), d.value));
  }
}
