# Verified model of the LAMMPS analysis scripts

This project models, in Dafny, the analysis scripts of a molecular-dynamics research collection. Most of them post-process LAMMPS runs of molten FLiBe salt and of carbide surfaces. The model covers:

- **Cluster detection** (`cluster_analysis_pair-without-ovito-only-traj.py`). It parses `--types` and `--cutoffs` ("A-B:d" rules) and builds adjacency sets of atoms bonded by a rule. It finds connected components by breadth-first search. Per frame it counts the clusters of size two or more and builds a size-by-frame histogram.
- **Stable F2 pair tracking** (`cluster_stable_pair_detector.py`). Frame selection ranges are parsed. Size-2 cluster centres are loaded in frame order. A greedy tracker matches each centre to the nearest trajectory seen in the previous frame, closes the unmatched trajectories (reporting those that lasted long enough) and starts new ones. It is a class whose `Step` and `Flush` methods are proved against functional specifications.
- **Cluster tables**: the three `cluster_analysis*` scripts, which select per-frame files by the number in their names, tag rows with frames, compute per-frame statistics and size/category tables, and assign first-match size categories. Also `cluster_after_detector.py`, which colours durations by bucket.
- **Adsorption sites** (`HEC_adsorption_finder.py`): the top layer, ontop, bridge and hollow sites, and greedy de-duplication within a tolerance.
- **ZBL range optimum** (`04.calculate_global_optimum.py`) and **energy error ranking** (`calculate_error.py`).
- **Multi-stage logs**: natural ordering of stage files and time-offset concatenation (`collect.py`, `steps_collect_all.py`). Also log-line filtering, header detection and cumulative offsets (`010.system.convert_combine_data.py`, `000.use_this_check_first_process_and_plot_logs.py`).
- **RDF output**: the strict frame/bin averager of `cal_rdf_final.py` and `cal_rdf.py`, and the tolerant block reader, range averaging and first-peak search of `cal_rdf_compare.py`.
- **Dump readers**: the per-frame energy totals of the two `021.system.parse_inner_*` scripts, and the first-atom energy and displacement scans of `002.pka_energy_small.py`, `parse_PKA_energy_dissipation.py` and `1.plot_displacement_vs_time.py`.
- **Thermo readers**: the five `parse_log_lammps` variants share one parser, parameterised by a `Layout`. The layout records the token minimum, the columns read, whether `IndexError` is caught, and whether values are appended one by one. Also covered: the small decisions the plotting scripts take, and the MSD reader of `3.plot_msd_F_Be_Li.py`.

Modelling conventions:

- Python exceptions are `Err` values of a `Result` (module `Wrappers`).
- File contents are sequences of lines, or already parsed tables where the script hands a file to numpy or pandas. A file that cannot be read is `None`.
- `float()` is an abstract partial parser `toReal: string -> Option<real>`, passed as a parameter. `int()` is modelled concretely: surrounding whitespace, an optional sign, and ASCII decimal digits, without the `_` digit separators Python also accepts.
- `str.split()`, `strip()`, `isdigit()`, `isalpha()` and `lower()` are modelled on ASCII characters (module `Text`). Whitespace is every ASCII character `str.isspace()` accepts: space, tab, line feed, vertical tab, form feed, carriage return, and the separators 0x1C to 0x1F.
- Distances are compared through squares: `|p - q| <= d` becomes `d >= 0` and `SqDist(p, q) <= d * d`.
- Where the sibling scripts share a reader, one Dafny member models all of them, and the table below cites the script whose lines it follows most closely.

Modules, in file order:

| file | module |
|---|---|
| `common.dfy` | `Wrappers`, `Text`, `Geometry` |
| `collections.dfy` | `Tally`, `Sorting` |
| `cluster_pair.dfy` | `ClusterPair` |
| `tracker.dfy` | `StablePairs` |
| `cluster_files.dfy` | `ClusterTables` |
| `adsorption.dfy` | `Adsorption` |
| `zbl_optimum.dfy` | `ZblOptimum` |
| `energy_error.dfy` | `EnergyError` |
| `log_merge.dfy` | `LogMerge` |
| `log_frames.dfy` | `LogFrames` |
| `rdf.dfy` | `Rdf` |
| `rdf_compare.dfy` | `RdfBlocks` |
| `dump.dfy` | `LammpsDump` |
| `thermo.dfy` | `Thermo` |

## Model

| member | source | states |
|---|---|---|
| Wrappers.MapAllMeaning | LAMMPS/Cascade/script/cluster_stable_pair_detector.py:49-55 | a convert-every-item loop succeeds iff every item converts, the results follow the items one for one, and a failure is the error of the first failing item |
| Wrappers.MapAllErr | LAMMPS/Cascade/script/cluster_stable_pair_detector.py:49-55 | once a prefix of the items fails, the whole loop fails with the same error |
| Text.Words | cal_rdf_compare.py:35 | `split()` yields non-empty words free of whitespace, where whitespace is every ASCII character `str.isspace()` accepts |
| Text.WordsStrip | cal_rdf_compare.py:35 | `line.strip().split()` equals `line.split()` |
| Text.StripEmptyIffNoWords | LAMMPS/calculate_error.py:9-10 | a stripped line is empty exactly when it has no words |
| Text.WordsJoin | cal_rdf_compare.py:35 | words joined by single spaces split back into the same words |
| Text.SplitOn | LAMMPS/Cascade/script/cluster_analysis_pair-without-ovito-only-traj.py:56 | `split(sep)` always gives at least one field and no field holds the separator |
| Text.JoinSplitOn | LAMMPS/Cascade/script/cluster_analysis_pair-without-ovito-only-traj.py:56 | joining the fields of `split(sep)` with the separator gives back the text |
| Text.SplitOnJoin | LAMMPS/Cascade/script/cluster_analysis_pair-without-ovito-only-traj.py:63 | splitting a join of separator-free fields gives back the fields |
| Text.Basename | LAMMPS/calculate_error.py:20 | the last '/'-separated component is a suffix of the path without '/' |
| Text.RemoveChar | LAMMPS/calculate_error.py:20 | `replace(',', '')` leaves no comma and never lengthens the text |
| Text.ParseIntNatToString | LAMMPS/Cascade/script/cluster_analysis_pair-without-ovito-only-traj.py:58 | printing a natural number and reading it back with `int()` gives the number |
| Text.DigitRun | LAMMPS/Cascade/script/cluster_stable_pair_detector.py:66 | the captured digit run is the longest run of digits at the start |
| Geometry.SqDist | LAMMPS/Cascade/script/cluster_analysis_pair-without-ovito-only-traj.py:124-134 | a squared distance is never negative |
| Geometry.WithinSymmetric | LAMMPS/Cascade/script/cluster_analysis_pair-without-ovito-only-traj.py:123-134 | the radius test is symmetric in its two points |
| Geometry.NotApartSelf | High_Entropy_Carbide/HEC_adsorption_finder.py:64-66 | a point is never more than a non-negative tolerance from itself |
| Tally.CountOf | LAMMPS/Cascade/script/cluster_after_detector.py:51 | a count is at most the number of records and positive exactly for keys present |
| Tally.FirstSeenMeaning | LAMMPS/calculate_error.py:25-33 | the keys of a dict filled in order are distinct and are exactly the keys inserted |
| Tally.Ascending | LAMMPS/Cascade/script/cluster_analysis.py:87 | a groupby index: strictly increasing, holding exactly the values present |
| Tally.SumCountsAll | LAMMPS/Cascade/script/cluster_after_detector.py:51 | the counts of distinct keys covering every record add up to the number of records |
| Tally.CountPairInColumn | LAMMPS/Cascade/script/cluster_analysis.py:120 | a crosstab cell counted over all records equals the count within its column |
| Tally.ColumnSum | LAMMPS/Cascade/script/cluster_analysis.py:120 | each crosstab column adds up to the number of records in it |
| Sorting.SortByMeaning | LAMMPS/Cascade/script/cluster_stable_pair_detector.py:88 | `sorted(xs, key=...)` returns a permutation of its input ordered by the key |
| Sorting.SortByStable | LAMMPS/Cascade/script/cluster_stable_pair_detector.py:88 | the sort is stable: elements with equal keys keep their relative order |
| Sorting.SortByMap | LAMMPS/calculate_error.py:51 | sorting then mapping equals mapping then sorting when the mapped key is the original key |
| ClusterPair.TypeItemRoundTrip | LAMMPS/Cascade/script/cluster_analysis_pair-without-ovito-only-traj.py:57-58 | an item written as `id:sym` reads back as the pair (sym, id) |
| ClusterPair.TypesOfOk | LAMMPS/Cascade/script/cluster_analysis_pair-without-ovito-only-traj.py:56-58 | `parse_types` succeeds iff every comma item is "ID:SYMBOL" with an integer ID |
| ClusterPair.TypesOfErr | LAMMPS/Cascade/script/cluster_analysis_pair-without-ovito-only-traj.py:56-58 | an error among the first items is the error of the whole parse: later items cannot repair it |
| ClusterPair.TypesOfKeys | LAMMPS/Cascade/script/cluster_analysis_pair-without-ovito-only-traj.py:55-59 | the table holds exactly the symbols named by some item |
| ClusterPair.TypesOfLast | LAMMPS/Cascade/script/cluster_analysis_pair-without-ovito-only-traj.py:58 | a repeated symbol keeps the ID of the last item naming it |
| ClusterPair.ParseTypes | LAMMPS/Cascade/script/cluster_analysis_pair-without-ovito-only-traj.py:54-59 | the loop over comma items builds the symbol table specified by `TypesOf` (or its error) |
| ClusterPair.RuleRoundTrip | LAMMPS/Cascade/script/cluster_analysis_pair-without-ovito-only-traj.py:64-66 | an item "A-B:d" with parsable d reads back as the rule (A, B, d) |
| ClusterPair.ParseCutoffs | LAMMPS/Cascade/script/cluster_analysis_pair-without-ovito-only-traj.py:61-67 | the loop yields the rules of the items in input order, or the error of the first bad item |
| ClusterPair.AdjacencyEntry | LAMMPS/Cascade/script/cluster_analysis_pair-without-ovito-only-traj.py:115-116 | every atom index 0..N-1 has an entry, and its neighbours are exactly the atoms some rule links to it |
| ClusterPair.LinkedMeaning | LAMMPS/Cascade/script/cluster_analysis_pair-without-ovito-only-traj.py:117-134 | two atoms are linked iff some rule bonds them (its two species, distinct atoms, squared distance within squared cutoff) |
| ClusterPair.AdjacencyShape | LAMMPS/Cascade/script/cluster_analysis_pair-without-ovito-only-traj.py:110-135 | KeyError iff a rule names an unmapped symbol; otherwise one entry per atom, indices in range, symmetric, no self-loops, and v neighbours u iff some rule bonds them |
| ClusterPair.AdjacencyPair | LAMMPS/Cascade/script/cluster_analysis_pair-without-ovito-only-traj.py:123-134 | for one pair: neighbour iff bonded by a rule, symmetric, and never a self-neighbour |
| ClusterPair.EmptySpeciesAddsNothing | LAMMPS/Cascade/script/cluster_analysis_pair-without-ovito-only-traj.py:121 | a rule whose species has no atom can be dropped without changing the adjacency |
| ClusterPair.ReportedBonded | LAMMPS/Cascade/script/cluster_analysis_pair-without-ovito-only-traj.py:123-134 | the pairs the KD-tree queries report for a rule, in either order, are exactly the pairs that rule bonds |
| ClusterPair.AddRule | LAMMPS/Cascade/script/cluster_analysis_pair-without-ovito-only-traj.py:119-134 | the edges of one rule are added in both directions and every old edge is kept |
| ClusterPair.BuildAdjacency | LAMMPS/Cascade/script/cluster_analysis_pair-without-ovito-only-traj.py:110-135 | the nested loops compute `AdjacencyOf` (or KeyError) |
| ClusterPair.NewNeighbours | LAMMPS/Cascade/script/cluster_analysis_pair-without-ovito-only-traj.py:150-153 | the atoms queued from `u` are exactly its unvisited neighbours, without repetition |
| ClusterPair.FrontierStep | LAMMPS/Cascade/script/cluster_analysis_pair-without-ovito-only-traj.py:147-153 | dequeuing an atom and queuing its unvisited neighbours keeps the search state (discovery order, visited set, closure of dequeued atoms) |
| ClusterPair.Explore | LAMMPS/Cascade/script/cluster_analysis_pair-without-ovito-only-traj.py:144-154 | one search from an unvisited atom returns a repetition-free component starting at it, of new atoms only, connected by discovery, with every neighbour of a member visited |
| ClusterPair.FindClusters | LAMMPS/Cascade/script/cluster_analysis_pair-without-ovito-only-traj.py:137-155 | the components partition the atoms, start at strictly increasing indices (each at its smallest member), are connected, and hold every neighbour not in an earlier component |
| ClusterPair.AppendComponent | LAMMPS/Cascade/script/cluster_analysis_pair-without-ovito-only-traj.py:154 | adding the component found from atom i keeps the loop invariant of `find_clusters` |
| ClusterPair.ComponentsClosed | LAMMPS/Cascade/script/cluster_analysis_pair-without-ovito-only-traj.py:126-153 | with the symmetric adjacency, each component holds every neighbour of its members: the components are the connected components |
| ClusterPair.NeighbourNotEarlier | LAMMPS/Cascade/script/cluster_analysis_pair-without-ovito-only-traj.py:143-153 | a neighbour of a member never lies in an earlier component |
| ClusterPair.KeptMeaning | LAMMPS/Cascade/script/cluster_analysis_pair-without-ovito-only-traj.py:171 | the kept clusters are exactly those of two or more atoms |
| ClusterPair.KeptNoSingles | LAMMPS/Cascade/script/cluster_analysis_pair-without-ovito-only-traj.py:171 | no kept cluster has fewer than two atoms |
| ClusterPair.KeptLarge | LAMMPS/Cascade/script/cluster_analysis_pair-without-ovito-only-traj.py:171 | every cluster of two or more atoms is kept, size by size |
| ClusterPair.SizeCountAppend | LAMMPS/Cascade/script/cluster_analysis_pair-without-ovito-only-traj.py:173-174 | the size count of two cluster lists joined is the sum of their counts |
| ClusterPair.SelectedMeaning | LAMMPS/Cascade/script/cluster_analysis_pair-without-ovito-only-traj.py:167-168 | frame idx is processed iff idx % skip == 0; processed frames keep their order and frame 0 is always processed |
| ClusterPair.SelectedGrows | LAMMPS/Cascade/script/cluster_analysis_pair-without-ovito-only-traj.py:167-168 | more frames never select fewer |
| ClusterPair.AddSizes | LAMMPS/Cascade/script/cluster_analysis_pair-without-ovito-only-traj.py:173-174 | the histogram gains one count per kept cluster, at (size, step) only |
| ClusterPair.HistStep | LAMMPS/Cascade/script/cluster_analysis_pair-without-ovito-only-traj.py:173-174 | after a frame the histogram still equals the kept sizes summed over processed frames with that step |
| ClusterPair.ProgressSkip | LAMMPS/Cascade/script/cluster_analysis_pair-without-ovito-only-traj.py:168 | a frame with idx % skip != 0 changes nothing |
| ClusterPair.ProgressStep | LAMMPS/Cascade/script/cluster_analysis_pair-without-ovito-only-traj.py:169-174 | a processed frame appends its step, its kept count and its clusters together |
| ClusterPair.Analyse | LAMMPS/Cascade/script/cluster_analysis_pair-without-ovito-only-traj.py:167-174 | skip 0 on a non-empty dump raises ZeroDivisionError; KeyError iff some frame is processed and a rule names an unmapped symbol; otherwise `times` and `counts` list exactly the processed frames' steps and kept-cluster counts, and `size_hist[s][step]` is the number of kept size-s clusters in frames with that step |
| StablePairs.SegmentRoundTrip | LAMMPS/Cascade/script/cluster_stable_pair_detector.py:50-55 | "a-b" reads back as the range (a, b) and a bare "v" as (v, v) |
| StablePairs.ParseSelect | LAMMPS/Cascade/script/cluster_stable_pair_detector.py:47-56 | the loop yields the range of each comma segment in order, or the error of the first bad one |
| StablePairs.InSelectMeaning | LAMMPS/Cascade/script/cluster_stable_pair_detector.py:58-59 | a frame is selected iff some range holds it, both ends included |
| StablePairs.PairCentresMeaning | LAMMPS/Cascade/script/cluster_stable_pair_detector.py:84-85 | each centre comes from a row of cluster size exactly 2, and every such row gives its centre |
| StablePairs.LoadCOMs | LAMMPS/Cascade/script/cluster_stable_pair_detector.py:61-88 | the entries of the files with a frame number in their name, selected (or no selection given) and with a quoted header, stably sorted by frame |
| StablePairs.LoadedEntries | LAMMPS/Cascade/script/cluster_stable_pair_detector.py:63-88 | the loaded entries are in ascending frame order, a permutation of the contributing files' entries, each from one such file |
| StablePairs.CollectedFrom | LAMMPS/Cascade/script/cluster_stable_pair_detector.py:63-86 | every collected entry is the contribution of some listed file |
| StablePairs.RecordSpan | LAMMPS/Cascade/script/cluster_stable_pair_detector.py:125-133 | an emitted record satisfies end_frame - start_frame = duration - 1 |
| StablePairs.ContiguousSpan | LAMMPS/Cascade/script/cluster_stable_pair_detector.py:114-115 | a history of consecutive frames spans its length minus one |
| StablePairs.RecordOfWell | LAMMPS/Cascade/script/cluster_stable_pair_detector.py:125-137 | the record of a well-formed trajectory has start = first frame, end = last frame, duration = history length and com = first sample |
| StablePairs.NearestWins | LAMMPS/Cascade/script/cluster_stable_pair_detector.py:103-110 | the scan picks an eligible trajectory (last seen at frame-1) strictly closer than the threshold and no farther than any other eligible one, the earliest on ties; with no pick every eligible trajectory is at least the threshold away |
| StablePairs.MatchStep | LAMMPS/Cascade/script/cluster_stable_pair_detector.py:102-118 | one pass of the centre loop extends the scanned trajectory, marks it matched, records its distance and uses the centre |
| StablePairs.MatchAllShape | LAMMPS/Cascade/script/cluster_stable_pair_detector.py:102-118 | after matching each trajectory is untouched or extended once by a centre of this frame; matched ones are the extended ones; used centres and distances agree |
| StablePairs.MatchAllKept | LAMMPS/Cascade/script/cluster_stable_pair_detector.py:105-110 | a trajectory no centre matched is unchanged |
| StablePairs.MatchAllExtended | LAMMPS/Cascade/script/cluster_stable_pair_detector.py:106-117 | a matched trajectory was eligible and gained exactly one sample, at this frame, from a centre of the frame |
| StablePairs.MatchAllDeltas | LAMMPS/Cascade/script/cluster_stable_pair_detector.py:108-118 | only centres of the frame are used, one distance per used centre, each below the squared threshold |
| StablePairs.ExtendedOnce | LAMMPS/Cascade/script/cluster_stable_pair_detector.py:106-115 | an extended trajectory is no longer eligible in the same frame, so it is extended at most once per frame |
| StablePairs.MatchAllSamples | LAMMPS/Cascade/script/cluster_stable_pair_detector.py:113-114 | every match adds exactly one sample and one distance |
| StablePairs.MatchAllWell | LAMMPS/Cascade/script/cluster_stable_pair_detector.py:114-117 | matching keeps trajectories made of consecutive frames, and matched ones end at this frame |
| StablePairs.CloseStep | LAMMPS/Cascade/script/cluster_stable_pair_detector.py:121-138 | one pass of the closing loop keeps a matched trajectory, emits an unmatched one iff its length is at least persist, and drops the rest |
| StablePairs.CloseSamples | LAMMPS/Cascade/script/cluster_stable_pair_detector.py:120-139 | closing loses no sample: every trajectory stays open, is emitted or is dropped, exactly once |
| StablePairs.CloseShape | LAMMPS/Cascade/script/cluster_stable_pair_detector.py:120-139 | the trajectories left open are exactly the matched ones; emitted records are well formed and at least persist long |
| StablePairs.NoneOpen | LAMMPS/Cascade/script/cluster_stable_pair_detector.py:149-163 | the final flush leaves nothing open |
| StablePairs.SpawnCount | LAMMPS/Cascade/script/cluster_stable_pair_detector.py:141-147 | every centre either was used by a match or starts exactly one one-sample trajectory |
| StablePairs.SpawnIgnores | LAMMPS/Cascade/script/cluster_stable_pair_detector.py:141-142 | indices outside the centre list do not affect which trajectories are started |
| StablePairs.StableDeltasCount | LAMMPS/Cascade/script/cluster_stable_pair_detector.py:165-169 | `delta_r_stable` gets duration - 1 entries per record |
| StablePairs.CloseAndSpawnKeeps | LAMMPS/Cascade/script/cluster_stable_pair_detector.py:120-147 | closing the unmatched trajectories and starting the unused centres keeps the tracker invariant (well-formed open trajectories seen in the latest frame, long-enough records, distances within the threshold, every centre accounted for) |
| StablePairs.Tracker.constructor | LAMMPS/Cascade/script/cluster_stable_pair_detector.py:91-95 | the tracker starts with no trajectories, records or distances, and threshold track_dist squared |
| StablePairs.Tracker.FindBest | LAMMPS/Cascade/script/cluster_stable_pair_detector.py:103-110 | the innermost loop computes the scan: the nearest eligible trajectory strictly inside the threshold |
| StablePairs.Tracker.MatchCentres | LAMMPS/Cascade/script/cluster_stable_pair_detector.py:98-118 | the open trajectories become the matching pass's result, with the matched flags, used centres and new distances |
| StablePairs.Tracker.CloseUnmatched | LAMMPS/Cascade/script/cluster_stable_pair_detector.py:120-139 | the open list becomes the matched trajectories and the long-enough unmatched ones are appended to the records |
| StablePairs.Tracker.SpawnUnused | LAMMPS/Cascade/script/cluster_stable_pair_detector.py:141-147 | one new trajectory per unused centre is appended, in centre order |
| StablePairs.Tracker.Step | LAMMPS/Cascade/script/cluster_stable_pair_detector.py:97-147 | one frame keeps the invariant; the open list, records and `delta_r_all` become match, then close, then spawn applied to the old state |
| StablePairs.Tracker.CloseAndSpawn | LAMMPS/Cascade/script/cluster_stable_pair_detector.py:120-147 | the second half of a frame keeps the invariant and updates open list and records as close-then-spawn |
| StablePairs.Tracker.Flush | LAMMPS/Cascade/script/cluster_stable_pair_detector.py:149-163 | every open trajectory at least persist long is emitted, nothing stays open, distances unchanged |
| StablePairs.StepWell | LAMMPS/Cascade/script/cluster_stable_pair_detector.py:139-147 | after a frame every open trajectory is well formed and last seen in that frame |
| StablePairs.GapClosesAll | LAMMPS/Cascade/script/cluster_stable_pair_detector.py:106-147 | when no open trajectory was seen in the previous frame (a gap), nothing is matched, every trajectory is closed and every centre starts anew |
| StablePairs.FrameKeepsWell | LAMMPS/Cascade/script/cluster_stable_pair_detector.py:97-142 | after one frame of matching, closing and spawning, every open trajectory is still a run of consecutive frames |
| StablePairs.DetectStable | LAMMPS/Cascade/script/cluster_stable_pair_detector.py:90-171 | the records are exactly those of the frame-by-frame run (match, close, spawn per frame, then the final flush), and `delta_r_all` is the run's match distances; every record is a run of consecutive frames at least persist long with end - start = duration - 1; the records hold at most one sample per centre; at most one distance per centre, each below track_dist squared; `delta_r_stable` has duration - 1 entries per record |
| StablePairs.CollectStableDeltas | LAMMPS/Cascade/script/cluster_stable_pair_detector.py:165-169 | the loop yields the consecutive-sample distances of each record, record by record |
| ClusterTables.SearchFromMeaning | LAMMPS/Cascade/script/cluster_analysis-need-ovito-data.py:53-56 | a frame number found in a name is the digit run captured right after some occurrence of the prefix (after one optional '.' or '_') |
| ClusterTables.DigitRunOfNumber | LAMMPS/Cascade/script/cluster_analysis-need-ovito-data.py:53 | the decimal spelling of a number followed by a non-digit is captured whole |
| ClusterTables.AfterPrefixOf | LAMMPS/Cascade/script/cluster_analysis-need-ovito-data.py:53-56 | the digits after an optional '.' or '_' separator are read as the frame number |
| ClusterTables.FrameOfName | LAMMPS/Cascade/script/cluster_analysis-need-ovito-data.py:53-56 | a file named "prefix.N", "prefix_N" or "prefixN" followed by a non-digit carries frame N |
| ClusterTables.Tag | LAMMPS/Cascade/script/cluster_analysis-need-ovito-data.py:68 | every row of a table is tagged with its file's frame, one tagged row per row, in order |
| ClusterTables.LoadAll | LAMMPS/Cascade/script/cluster_analysis-need-ovito-data.py:71-83 | the loop over the frame-sorted files gives the specified load: AttributeError when a name has no frame number, ZeroDivisionError on a zero skip, otherwise the tagged rows of the files whose frame is divisible by skip, in frame order, or the empty table |
| ClusterTables.LoadedMeaning | LAMMPS/Cascade/script/cluster_analysis-need-ovito-data.py:71-83 | a successful load holds only rows of frames divisible by skip, each from a file carrying that frame, with frames ascending |
| ClusterTables.GatheredFrames | LAMMPS/Cascade/script/cluster_analysis-need-ovito-data.py:79-82 | every gathered row carries the frame of a kept file of the listing |
| ClusterTables.GatheredAscending | LAMMPS/Cascade/script/cluster_analysis-need-ovito-data.py:74-82 | rows gathered from frame-sorted files have non-decreasing frames |
| ClusterTables.LoadSimplified | LAMMPS/Cascade/script/cluster_analysis-need-ovito-data-simplified.py:54-58 | when files exist but none is kept, the concatenation of an empty list raises ValueError |
| ClusterTables.FirstLabel | LAMMPS/Cascade/script/cluster_analysis-need-ovito-data-simplified.py:61-65 | the label returned holds for the size and is one of the labels tried; no label means none holds |
| ClusterTables.FirstLabelFirst | LAMMPS/Cascade/script/cluster_analysis-need-ovito-data-simplified.py:62-64 | the returned label is the first in `CATEGORY_ORDER` whose predicate holds |
| ClusterTables.AssignLabelTable | LAMMPS/Cascade/script/cluster_analysis-need-ovito-data-simplified.py:25-32 | 1 is free F, 3-5 one Be, 9 two Be, 13 three Be, 17 and up polymer, any other size unlabelled |
| ClusterTables.Categorize | LAMMPS/Cascade/script/cluster_analysis-need-ovito-data-simplified.py:60-68 | categorisation never adds rows |
| ClusterTables.CategorizeCount | LAMMPS/Cascade/script/cluster_analysis-need-ovito-data-simplified.py:66-67 | exactly the rows whose size has no label are dropped |
| ClusterTables.TrendSum | LAMMPS/Cascade/script/cluster_analysis-need-ovito-data-simplified.py:109 | a frame's category counts, absent categories as 0, add up to the number of categorised rows of that frame |
| ClusterTables.CountStats | LAMMPS/Cascade/script/cluster_analysis-need-ovito-data.py:85-88 | one (frame, cluster_count) row per distinct frame |
| ClusterTables.CountStatsMeaning | LAMMPS/Cascade/script/cluster_analysis-need-ovito-data.py:87-88 | the statistics list each frame of the table once, in strictly ascending order, each with a count of at least one, and the counts add up to the number of rows |
| ClusterTables.HeatmapColumn | LAMMPS/Cascade/script/cluster_analysis-need-ovito-data.py:112 | a heatmap cell counts the rows of that size in that frame, and each frame's column adds up to that frame's cluster count |
| ClusterTables.MaxInts | LAMMPS/Cascade/script/cluster_analysis.py:89 | the maximum is one of the values and no value exceeds it |
| ClusterTables.SumAtMostMax | LAMMPS/Cascade/script/cluster_analysis.py:89 | a sum is at most the number of terms times the largest term |
| ClusterTables.MeanAtMostMax | LAMMPS/Cascade/script/cluster_analysis.py:89 | a mean of values bounded by m is at most m |
| ClusterTables.StatOfMeaning | LAMMPS/Cascade/script/cluster_analysis.py:87-92 | a frame's statistics have count >= 1, equal to its number of rows, and a mean size no larger than the maximum size |
| ClusterTables.FullStats | LAMMPS/Cascade/script/cluster_analysis.py:85-97 | one statistics row per distinct frame |
| ClusterTables.FullStatsMeaning | LAMMPS/Cascade/script/cluster_analysis.py:87-93 | frames strictly ascend; every listed frame occurs in the table with count >= 1 equal to its row count, and avg_cluster_size <= max_cluster_size |
| ClusterTables.Analyse | LAMMPS/Cascade/script/cluster_analysis.py:144-148 | nothing loaded ends the program before any statistics; otherwise at least one statistics row |
| ClusterTables.ColourOf | LAMMPS/Cascade/script/cluster_after_detector.py:29-37 | every colour index lies in 0..len(ranges)+1, matching a colormap of len(ranges)+2 colours |
| ClusterTables.FirstAtLeast | LAMMPS/Cascade/script/cluster_after_detector.py:32-37 | the index is that of the first bound at or above the value, or the number of bounds |
| ClusterTables.FirstAtLeastUnique | LAMMPS/Cascade/script/cluster_after_detector.py:32-37 | the first bound at or above a value is unique: any index with the two defining properties is it |
| ClusterTables.AssignColours | LAMMPS/Cascade/script/cluster_after_detector.py:25-38 | one colour per value, in input order, each the value's colour index |
| ClusterTables.ColourMonotone | LAMMPS/Cascade/script/cluster_after_detector.py:29-37 | a larger mean duration never gets a smaller colour index, for any bounds |
| ClusterTables.ParseRangesRoundTrip | LAMMPS/Cascade/script/cluster_after_detector.py:44 | bounds written with '-' between them read back in order |
| ClusterTables.EndTable | LAMMPS/Cascade/script/cluster_after_detector.py:51-57 | one output row per distinct end frame |
| ClusterTables.EndTableMeaning | LAMMPS/Cascade/script/cluster_after_detector.py:51-101 | end frames strictly ascend, each count is at least one, each colour is in range, and the counts add up to the number of records |
| Adsorption.MaxZ | High_Entropy_Carbide/HEC_adsorption_finder.py:14 | the highest z is attained by some atom and no atom is higher |
| Adsorption.ZHighest | High_Entropy_Carbide/HEC_adsorption_finder.py:14 | `np.max` succeeds iff the structure has atoms, giving the highest z; otherwise ValueError |
| Adsorption.TopLayerBelowMeaning | High_Entropy_Carbide/HEC_adsorption_finder.py:18 | the indices below n in the layer are exactly those with z_highest - 1 < z <= z_highest, strictly increasing |
| Adsorption.TopLayerMeaning | High_Entropy_Carbide/HEC_adsorption_finder.py:18 | the top layer holds exactly the atoms with z in (z_highest - 1, z_highest], each once, in index order |
| Adsorption.HighestInTop | High_Entropy_Carbide/HEC_adsorption_finder.py:14-18 | with the true highest z the top layer contains the highest atom, so it is never empty |
| Adsorption.Ontop | High_Entropy_Carbide/HEC_adsorption_finder.py:23 | one ontop site per top-layer atom |
| Adsorption.OntopOnePerAtom | High_Entropy_Carbide/HEC_adsorption_finder.py:23 | every top-layer atom has exactly one ontop site, at its x and y and height z_set |
| Adsorption.OntopAboveLayer | High_Entropy_Carbide/HEC_adsorption_finder.py:23 | every ontop site stands above a top-layer atom |
| Adsorption.BridgePairs | High_Entropy_Carbide/HEC_adsorption_finder.py:28-32 | the bridge pairs are exactly the listed neighbour pairs (i, j) with i < j and both ends in the top layer |
| Adsorption.BridgeOncePerPair | High_Entropy_Carbide/HEC_adsorption_finder.py:28-32 | from a two-way neighbour list, each unordered pair of neighbouring top atoms yields exactly one bridge pair, smaller index first |
| Adsorption.Midpoint | High_Entropy_Carbide/HEC_adsorption_finder.py:36-39 | a bridge site is at height z_set |
| Adsorption.MidpointHalfway | High_Entropy_Carbide/HEC_adsorption_finder.py:36-39 | the bridge site is horizontally equidistant from its two atoms, at half their horizontal distance, whichever order they come in |
| Adsorption.BridgeSites | High_Entropy_Carbide/HEC_adsorption_finder.py:34-39 | one bridge site per bridge pair: a ghost visit order lists every pair exactly once, and site `k` is the midpoint of the `k`-th visited pair, so a midpoint shared by two pairs appears twice |
| Adsorption.CombinationsCount | High_Entropy_Carbide/HEC_adsorption_finder.py:46 | there are C(n, 4) four-atom groups of n top atoms |
| Adsorption.CombinationsShape | High_Entropy_Carbide/HEC_adsorption_finder.py:46 | each group holds four atoms |
| Adsorption.Centre | High_Entropy_Carbide/HEC_adsorption_finder.py:58-59 | a hollow site is at height z_set |
| Adsorption.CentreBalances | High_Entropy_Carbide/HEC_adsorption_finder.py:58-59 | the hollow site is the mean of its four atoms in the plane |
| Adsorption.HollowOfMeaning | High_Entropy_Carbide/HEC_adsorption_finder.py:46-59 | every hollow site is the centre of an accepted group, every accepted group gives one, and there are at most as many sites as groups |
| Adsorption.HollowSites | High_Entropy_Carbide/HEC_adsorption_finder.py:42-59 | the loop over the four-atom groups yields the centres of the accepted groups in group order |
| Adsorption.Deduplicate | High_Entropy_Carbide/HEC_adsorption_finder.py:62-67 | the loop computes the greedy de-duplication: a site is kept iff it is more than tol from every site kept before it |
| Adsorption.DedupSubsequence | High_Entropy_Carbide/HEC_adsorption_finder.py:62-67 | the kept sites are a subsequence of the input in input order, and every dropped site is within tol of a site kept before it |
| Adsorption.DedupKeepsFirst | High_Entropy_Carbide/HEC_adsorption_finder.py:63-66 | the first site is always kept, first |
| Adsorption.DedupApart | High_Entropy_Carbide/HEC_adsorption_finder.py:64-66 | any two kept sites are more than tol apart |
| Adsorption.DedupOfApart | High_Entropy_Carbide/HEC_adsorption_finder.py:64-66 | sites already pairwise more than tol apart pass through unchanged |
| Adsorption.DedupIdempotent | High_Entropy_Carbide/HEC_adsorption_finder.py:62-67 | de-duplicating the output again changes nothing |
| ZblOptimum.FindDataStart | LAMMPS/Find_ZBL_range/04.calculate_global_optimum.py:15-23 | the start is one past the first line beginning with '=', or 0 when no line does |
| ZblOptimum.RmseLineRoundTrip | LAMMPS/Find_ZBL_range/04.calculate_global_optimum.py:37-45 | a line of at least three tokens whose first three parse yields ((d1, d2), rmse) |
| ZblOptimum.YieldsMeaning | LAMMPS/Find_ZBL_range/04.calculate_global_optimum.py:36-47 | each yield comes from a data line (three or more tokens, first three numeric) and each such line yields once, in line order; other lines are skipped |
| ZblOptimum.ProcessRmseFile | LAMMPS/Find_ZBL_range/04.calculate_global_optimum.py:25-50 | the generator yields the data lines after the separator of an opened table, and nothing for a missing file |
| ZblOptimum.TotalsMeaning | LAMMPS/Find_ZBL_range/04.calculate_global_optimum.py:57-63 | the total of a key is the sum of its rmse over all yields, its count the number of its yields, and the keys are exactly those yielded |
| ZblOptimum.TalliedStep | LAMMPS/Find_ZBL_range/04.calculate_global_optimum.py:62-63 | one `+=` on both dicts extends the tallies by one yield |
| ZblOptimum.AddYield | LAMMPS/Find_ZBL_range/04.calculate_global_optimum.py:62-63 | the two updates of one yield keep the tallies equal to those of the yields so far |
| ZblOptimum.AddYields | LAMMPS/Find_ZBL_range/04.calculate_global_optimum.py:61-63 | the inner loop folds one table's yields into the tallies |
| ZblOptimum.AccumulateRmse | LAMMPS/Find_ZBL_range/04.calculate_global_optimum.py:52-70 | the totals, counts and key order are the tallies of all yields of all tables |
| ZblOptimum.CountsPositive | LAMMPS/Find_ZBL_range/04.calculate_global_optimum.py:65-68 | every counted key has count >= 1, so the never-found warning cannot fire; the keys are exactly the yielded keys, each once |
| ZblOptimum.MinItem | LAMMPS/Find_ZBL_range/04.calculate_global_optimum.py:72-76 | the chosen key has the least total, and on ties it is the first inserted |
| ZblOptimum.FindOptimalParameters | LAMMPS/Find_ZBL_range/04.calculate_global_optimum.py:72-76 | `min` raises ValueError exactly on no items, otherwise gives the least-total item |
| ZblOptimum.SummaryHeadIsOptimum | LAMMPS/Find_ZBL_range/04.calculate_global_optimum.py:86 | the summary is the items in ascending total, each once, and its first row carries the optimal total |
| ZblOptimum.Optimise | LAMMPS/Find_ZBL_range/04.calculate_global_optimum.py:94-105 | no data at all gives no report; otherwise the optimum and the summary of the accumulated totals |
| EnergyError.RefLine | LAMMPS/calculate_error.py:9-11 | a reference line fails only with IndexError (too short) or ValueError (energy not numeric) |
| EnergyError.RefMapLastWins | LAMMPS/calculate_error.py:10-12 | the reference map holds exactly the named files, and a file named more than once keeps the energy of its last line |
| EnergyError.LoadReferenceEnergies | LAMMPS/calculate_error.py:4-13 | the loop fails iff some line is malformed, with that line's error; otherwise it builds the reference map |
| EnergyError.ValueAfterEq | LAMMPS/calculate_error.py:18-21 | reading the value after '=' fails only with IndexError or ValueError |
| EnergyError.ValueAfterEqOf | LAMMPS/calculate_error.py:18 | `name=value` reads back as the value |
| EnergyError.ParseLammpsLineRoundTrip | LAMMPS/calculate_error.py:15-23 | a line written as "d1=a d2=b path ... E=e" reads back as a, b, e and the comma-free base name of path |
| EnergyError.GroupsMeaning | LAMMPS/calculate_error.py:27-33 | each group holds exactly the (file, energy) entries of its key's lines, in file order, and the groups are those of the keys that occur |
| EnergyError.GroupedStep | LAMMPS/calculate_error.py:30-32 | one pass of the loader loop appends the line's entry to its group, opening the group after the others when the key is new |
| EnergyError.LoadLammpsResults | LAMMPS/calculate_error.py:25-33 | the loop fails iff some line is malformed, with its error; otherwise it gives the groups in first-seen key order |
| EnergyError.Sq | LAMMPS/calculate_error.py:42 | a squared error is never negative, and zero for a zero difference |
| EnergyError.Errors | LAMMPS/calculate_error.py:39-42 | a group has at most one error per entry |
| EnergyError.SquaredErrors | LAMMPS/calculate_error.py:39-42 | the inner loop collects the squared errors of the entries whose reference is present and non-zero |
| EnergyError.ErrorsNonEmpty | LAMMPS/calculate_error.py:41-43 | a group is scored iff some entry has a truthy reference, so a reference of exactly 0.0 is skipped |
| EnergyError.SumNonNegative | LAMMPS/calculate_error.py:44 | a sum of non-negative errors is non-negative, and zero when all are zero |
| EnergyError.MeanSquaredError | LAMMPS/calculate_error.py:44 | the mean squared error is never negative, and it is zero when every counted structure matches its reference |
| EnergyError.ScoredStep | LAMMPS/calculate_error.py:38-44 | one pass of the scoring loop adds the key iff its group has a counted entry, with the mean of its squared errors |
| EnergyError.CalculateRmse | LAMMPS/calculate_error.py:35-45 | the scored keys are the groups with a counted entry, in group order, each with the mean of its squared errors |
| EnergyError.ScoredKeysMeaning | LAMMPS/calculate_error.py:43-44 | a key is scored iff some structure of its group has a truthy reference |
| EnergyError.BestArePrefix | LAMMPS/calculate_error.py:47-61 | the listing is the items in ascending error, each once, and the best keys are the keys of its first min(3, n) rows |
| LogMerge.SegmentsAlternate | LAMMPS/Cascade/collect.py:73 | splitting on captured digit runs gives an odd number of pieces, digit-free text at even positions and digit runs at odd positions |
| LogMerge.SegmentsConcat | LAMMPS/Cascade/collect.py:73 | the split pieces joined back together give the original file name: splitting loses no character |
| LogMerge.SegmentsExample | LAMMPS/Cascade/collect.py:73 | "x_2" splits into "x_", "2", "" and "x_10" into "x_", "10", "" |
| LogMerge.NaturalKeyAlternates | LAMMPS/Cascade/collect.py:69-74 | a natural key has odd length and holds an integer exactly at its odd positions, text everywhere else |
| LogMerge.StrLessAsymmetric | LAMMPS/Cascade/collect.py:84 | string order never holds both ways round |
| LogMerge.StrLessTotal | LAMMPS/Cascade/collect.py:84 | of two different strings one is smaller |
| LogMerge.KeyLessAsymmetric | LAMMPS/Cascade/collect.py:84 | list order on keys never holds both ways round |
| LogMerge.KeyLessTotal | LAMMPS/Cascade/collect.py:84 | of two different keys whose kinds agree position by position, one is smaller |
| LogMerge.NaturalKeysComparable | LAMMPS/Cascade/collect.py:69-74 | two natural keys never put text against an integer, so sorting by them cannot raise TypeError, and of two different keys one is smaller |
| LogMerge.NaturalOrderExample | LAMMPS/Cascade/script/steps_collect_all.py:7-11 | natural order puts stage "x_2" before "x_10", the reverse of plain string order |
| LogMerge.NaturalLessAsymmetric | LAMMPS/Cascade/collect.py:84 | comparing natural keys is an asymmetric order on file names |
| LogMerge.InsertByLess | LAMMPS/Cascade/collect.py:84 | inserting into a sorted list adds exactly the new element and keeps it sorted |
| LogMerge.SortByLess | LAMMPS/Cascade/collect.py:84 | sorting by an asymmetric less-than returns a permutation of the input in which no element is smaller than the one before it |
| LogMerge.SortNatural | LAMMPS/Cascade/collect.py:84 | the sorted file list holds the same names, and no name has a smaller natural key than the name before it |
| LogMerge.MergeErrPersists | LAMMPS/Cascade/collect.py:97-117 | once a prefix of the file list fails, the whole merge fails with that same error |
| LogMerge.LoadAndMergeData | LAMMPS/Cascade/collect.py:76-124 | the loop returns the merged series that the stage-by-stage fold defines, or its error (FileNotFoundError for an empty list) |
| LogMerge.MergeInvariant | LAMMPS/Cascade/collect.py:97-117 | after any prefix every copied series is as long as the time axis, the offset equals the last merged time (0 before any file), and there is one change point per readable file after list position 0 |
| LogMerge.MergeContinues | LAMMPS/Cascade/collect.py:104-113 | a readable stage is appended shifted by the last merged time, and after position 0 that time becomes a change point: merged time is continuous across stages |
| LogMerge.MergeSkips | LAMMPS/Cascade/collect.py:98-102 | a file that cannot be loaded leaves times, series, change points and offset unchanged |
| LogMerge.MergeFailsIff | LAMMPS/Cascade/collect.py:84-117 | FileNotFoundError is raised exactly when no file matches, and the merge fails exactly when no file matches or some loadable file lacks two rows or ten columns |
| LogMerge.MergeFailsIffFold | LAMMPS/Cascade/collect.py:97-117 | the stage loop only ever fails with IndexError, and it fails exactly when some loadable file lacks two rows or ten columns |
| LogMerge.MergeErrIsIndex | LAMMPS/Cascade/collect.py:105-117 | the only error the stage loop raises is IndexError from a missing column |
| LogMerge.MergeErrIffUnusable | LAMMPS/Cascade/collect.py:105-117 | the stage loop fails if and only if some loadable file lacks two rows or ten columns |
| LogMerge.StepsFoldNext | LAMMPS/Cascade/script/steps_collect_all.py:18-32 | the fold over one more stage is one more pass of the loop body on the state so far |
| LogMerge.StepsErrPersists | LAMMPS/Cascade/script/steps_collect_all.py:18-32 | an error in an early stage is the outcome of the whole script: later stages cannot repair it |
| LogMerge.StepsCollectAll | LAMMPS/Cascade/script/steps_collect_all.py:18-38 | the loop yields the corrected merged series and the plotted range from its first to its last time, or the error the script stops with (an unreadable file, a missing column, or no file at all) |
| LogMerge.StepsMergeMatchesCollect | LAMMPS/Cascade/script/steps_collect_all.py:18-32 | with every file readable, the corrected script and load_and_merge_data succeed together and give the same series, with a non-empty time axis when there is a file, so the continuity of MergeContinues carries over |
| LogMerge.StageOne | LAMMPS/Cascade/script/steps_collect_all.py:18-32 | one stage from 0 to 1 is copied unshifted, with no change point |
| LogMerge.StageTwo | LAMMPS/Cascade/script/steps_collect_all.py:18-32 | a second such stage is shifted by 1, under either offset rule, with change point 1 |
| LogMerge.StageThree | LAMMPS/Cascade/script/steps_collect_all.py:22-26 | the third such stage starts at 3 with the offset rule as written and at 2 with the corrected one |
| LogMerge.StepsOffsetDoubleCounts | LAMMPS/Cascade/script/steps_collect_all.py:22-24 | as written, three stages from 0 to 1 merge to times 0,1,1,2,3,4 with change points 1,3 (a gap from 2 to 3); corrected, to 0,1,1,2,2,3 with change points 1,2 |
| LogFrames.FirstHeaderSnoc | LAMMPS/Cascade/script/010.system.convert_combine_data.py:19-21 | a later line can only become the header while no earlier kept line has |
| LogFrames.ReadLogLines | LAMMPS/Cascade/script/010.system.convert_combine_data.py:11-25 | the lines handed to the table parser are the stripped, non-blank, non-marker lines in file order, and the header is the first of them that starts with a letter |
| LogFrames.KeptLinesShape | LAMMPS/Cascade/script/010.system.convert_combine_data.py:15-17 | no line is invented, and every kept line is stripped at both ends, non-empty and not a `==>` marker |
| LogFrames.KeptLinesAppend | LAMMPS/Cascade/script/010.system.convert_combine_data.py:14-23 | filtering is line by line: the kept lines of two consecutive pieces of a file are the kept lines of each, in order |
| LogFrames.KeptLine | LAMMPS/Cascade/script/010.system.convert_combine_data.py:15-23 | a line with content that is not a marker is kept, stripped |
| LogFrames.FirstHeaderMeaning | LAMMPS/Cascade/script/010.system.convert_combine_data.py:19-21 | there is no header exactly when no kept line starts with a letter; otherwise the header is a kept line starting with a letter before which no kept line does |
| LogFrames.HeaderIsFirstChar | LAMMPS/Cascade/script/010.system.convert_combine_data.py:19 | on a kept line, the first character of the first word is the line's first character, so the letter test never indexes out of range |
| LogFrames.ColumnIndex | LAMMPS/Cascade/script/010.system.convert_combine_data.py:42-46 | a column name is looked up at the first position holding that name |
| LogFrames.MaxCell | LAMMPS/Cascade/script/010.system.convert_combine_data.py:48 | the maximum of a numeric column skips missing values: it is missing exactly when no value is a number, and otherwise is one of the numbers and at least every number |
| LogFrames.MaxCellShift | LAMMPS/Cascade/script/010.system.convert_combine_data.py:46-48 | the maximum of a column shifted by an offset is the column's maximum shifted by that offset |
| LogFrames.CombineLogFilesWithOffset | LAMMPS/Cascade/script/010.system.convert_combine_data.py:29-58 | the loop returns the pieces the file-by-file fold defines: files that fail to read or lack v_simTime are skipped, and so are files whose v_simTime holds text, where the addition raises a TypeError that is caught |
| LogFrames.CombineSelects | LAMMPS/Cascade/script/010.system.convert_combine_data.py:39-50 | there is one piece per usable file, in list order, holding that file's table unchanged and tagged with its base name |
| LogFrames.CombineOffsets | LAMMPS/Cascade/script/010.system.convert_combine_data.py:37-48 | each piece's convert_simTime is its v_simTime plus the largest converted time of the piece before (0 for the first), and the final offset is the largest converted time of the last piece |
| LogFrames.CombineInOrder | LAMMPS/Cascade/script/010.system.convert_combine_data.py:37-50 | when every usable file has rows with non-negative times, the combined time axis never goes back across files, and the final offset is non-negative and bounds every converted time |
| LogFrames.WritesCsv | LAMMPS/Cascade/script/010.system.convert_combine_data.py:64-70 | combined_data.csv is written exactly when some piece has a row |
| LogFrames.RowCountPositive | LAMMPS/Cascade/script/010.system.convert_combine_data.py:54-57 | the concatenated table has rows exactly when some piece does |
| LogFrames.FillNaMeaning | LAMMPS/Cascade/script/000.use_this_check_first_process_and_plot_logs.py:35-37 | after filling no cell is missing: missing values become 0 and every other cell stays in place |
| LogFrames.FillNaIdempotent | LAMMPS/Cascade/script/000.use_this_check_first_process_and_plot_logs.py:35-37 | a filled table has no missing value, and filling it again changes nothing |
| LogFrames.ShiftColumn | LAMMPS/Cascade/script/000.use_this_check_first_process_and_plot_logs.py:98 | adding the offset to Step keeps the columns and turns the Step column into the old one shifted |
| LogFrames.ProcessIndividualLogs | LAMMPS/Cascade/script/000.use_this_check_first_process_and_plot_logs.py:41-62 | the breakpoint drawn in each temperature figure is the cumulative offset plus 2540; the offset grows by the file's largest Step for every file with numeric Step, including one that then fails with KeyError on a missing temperature column and draws nothing; files without v_simTime or Step, or with text in Step, leave the offset alone |
| LogFrames.CombineAllLogs | LAMMPS/Cascade/script/000.use_this_check_first_process_and_plot_logs.py:89-101 | the concatenated tables are the usable files in order, each with Step shifted by the largest shifted Step of the file before; a file whose Step holds text raises a caught TypeError and is skipped |
| LogFrames.ModesShareOffset | LAMMPS/Cascade/script/000.use_this_check_first_process_and_plot_logs.py:54-100 | the individual and the combined mode end with the same cumulative offset; there are never more breakpoints than concatenated tables, and exactly as many when every such file has the temperature columns |
| LogFrames.TimePs | LAMMPS/Cascade/script/000.use_this_check_first_process_and_plot_logs.py:158-161 | Time_ps is computed exactly when there is a Dt column and both columns are numeric; it fails with KeyError exactly when Dt is present but Step is not, and with TypeError when either holds text; a value is missing exactly where Step or Dt is |
| Rdf.ReadBins | cal_rdf_final.py:41-49 | a successful bin loop consumed lines that were there and produced exactly one row per bin |
| Rdf.AverageFrames | cal_rdf_final.py:56-60 | averaging succeeds exactly when at least one frame was read, and gives one row of r and six g values per bin |
| Rdf.ReadBinsStep | cal_rdf_final.py:41-49 | a good bin line contributes its row and the loop carries on with the next line |
| Rdf.ReadBinsFails | cal_rdf_final.py:43-48 | a bad bin line stops the loop with that line's error |
| Rdf.ReadFramesStep | cal_rdf_final.py:36-49 | a marker followed by a full frame contributes that frame, and reading resumes after its last bin line |
| Rdf.SumCellSnoc | cal_rdf_final.py:44-46 | one more frame adds its entry to every running sum |
| Rdf.AddBin | cal_rdf_final.py:44-46 | the seven values of a bin line, converted in order, are added into that bin's row of the sums and no other entry changes; a failed conversion is reported as the bin line's error |
| Rdf.CellSnoc | cal_rdf_final.py:41-49 | a newly read row adds its entries at its own bin and nowhere else |
| Rdf.AddLine | cal_rdf_final.py:42-48 | a line of fourteen tokens is added into its bin's row; a line of another width is a ValueError |
| Rdf.AddNextBin | cal_rdf_final.py:41-49 | one pass of the bin loop either extends the rows read so far and adds that row into its bin, or yields the error the whole bin loop ends with |
| Rdf.AddFrame | cal_rdf_final.py:38-49 | the bin loop reads what the line-by-line definition reads, and adds each row of the frame into the running sums |
| Rdf.AverageRdf | cal_rdf_final.py:32-60 | the script's reading loop and division produce the frame average (entry by entry, sum over frames divided by the frame count) or the error the definition gives |
| Rdf.SkipBinLines | cal_rdf_final.py:38 | bin lines never count as frame markers |
| Rdf.ReadBinsOk | cal_rdf_final.py:41-49 | the bin loop succeeds exactly when enough lines remain and each is a good fourteen-token bin line, and fails with IndexError exactly when the lines run out before a bad line is met |
| Rdf.BinValuesOk | cal_rdf_final.py:44-46 | the seven conversions succeed exactly when every token they read converts, and a failure is a ValueError |
| Rdf.FrameCountIsMarkers | cal_rdf_final.py:36-40 | on success the frame count is the number of marker lines, and the body after the header is exactly that many frames of one marker and one hundred bin lines |
| Rdf.FrameAverageErrors | cal_rdf_final.py:33-60 | no body line or a first body line that is not a marker is a ValueError; a first frame cut short after good bin lines is an IndexError |
| Rdf.SumCellConstant | cal_rdf_final.py:56-57 | summing one entry over copies of the same frame multiplies it by the frame count |
| Rdf.AverageOfEqualFrames | cal_rdf_final.py:56-57 | averaging frames that are all the same table gives that table back: the result is a mean, not a sum |
| RdfBlocks.ReadRdfBlocks | cal_rdf_compare.py:27-45 | the reading loop and the final flush give the blocks the line-by-line definition gives, or the ValueError of a step or value that does not convert |
| RdfBlocks.ReadFromErr | cal_rdf_compare.py:34-42 | once the loop has raised, the remaining lines do not matter |
| RdfBlocks.ReadFromAppend | cal_rdf_compare.py:34-42 | the loop over two consecutive runs of lines is the loop over the first followed by the loop over the second |
| RdfBlocks.FlushShaped | cal_rdf_compare.py:37-38 | a flush records only a non-empty block of fourteen-column rows |
| RdfBlocks.ReadFromShaped | cal_rdf_compare.py:34-42 | the loop only ever records non-empty blocks and only collects fourteen-token rows |
| RdfBlocks.BlocksWellShaped | cal_rdf_compare.py:34-45 | empty blocks are never recorded: every block read has at least one row, each with the fourteen columns of a bin line |
| RdfBlocks.RowsBeforeHeader | cal_rdf_compare.py:36-42 | lines before the first step header cannot fail and record no block and no step |
| RdfBlocks.RowsBeforeHeaderDiscarded | cal_rdf_compare.py:37-40 | rows before the first step header are discarded: such a prefix does not change what the loop reads from the first header on |
| RdfBlocks.MarkerForgets | cal_rdf_compare.py:36-40 | a header read with no block and no step yet leaves the same state as when it is the first line |
| RdfBlocks.ReadBinLines | cal_rdf_compare.py:41-42 | fourteen-token lines are collected into the current block, tokens unconverted and in order |
| RdfBlocks.LastBlockFlushed | cal_rdf_compare.py:36-45 | the rows after the final header form the last block, tagged with that header's step and appended after the earlier blocks |
| RdfBlocks.InRangeMeaning | cal_rdf_compare.py:73-76 | a table is selected exactly when some block whose step lies in the range, both ends included, carries it |
| RdfBlocks.RangeAverage | cal_rdf_compare.py:82-85 | stacking succeeds only for tables of one shape, and gives one row per bin of r and six averaged g values |
| RdfBlocks.AverageOfOneBlock | cal_rdf_compare.py:82-85 | a single selected block averages to its own r and six g columns, unchanged |
| RdfBlocks.PeakBin | cal_rdf_compare.py:101-103 | the peak is a bin with r > 0.5 whose g is at least every valid bin's g and is the first such bin; there is none exactly when no bin has r > 0.5 |
| RdfBlocks.PeakIgnoresScale | cal_rdf_compare.py:99-103 | dividing g by 1.875 does not move the peak |
| RdfBlocks.LegendOnce | cal_rdf_compare.py:114-115 | no pair gets two legend entries, and every plotted pair gets one |
| RdfBlocks.AllRowsErr | cal_rdf_compare.py:72-111 | once a step range has failed, later ranges do not matter |
| RdfBlocks.PairsSnoc | cal_rdf_compare.py:106-111 | appending a peak row appends its pair to the sequence of plotted pairs |
| RdfBlocks.LegendSnoc | cal_rdf_compare.py:114-115 | a newly plotted pair gets a legend entry exactly when it was not labelled before |
| RdfBlocks.PlotPairs | cal_rdf_compare.py:94-115 | the pair loop appends the peak of each plotted pair to peak_data, and the labelled set and legend entries stay those of all pairs plotted so far |
| RdfBlocks.CompareRanges | cal_rdf_compare.py:72-115 | the range loop gives the peaks of the plotted pairs of every range that has blocks, in order, with one legend entry per pair |
| LammpsDump.HeaderKinds | LAMMPS/Cascade/script/021.system.parse_inner_energy_dissipation_work.py:25-37 | a timestep header is also a section header, and an atoms header is never a timestep header |
| LammpsDump.FindAtomsFirst | LAMMPS/Cascade/script/021.system.parse_inner_energy_dissipation_work.py:29-30 | the scan finds the first atoms header from its start, and finds none only when no later line is one |
| LammpsDump.BlockEndFirst | LAMMPS/Cascade/script/021.system.parse_inner_energy_dissipation_work.py:37 | the atom block runs up to the next section header, or to the end of the file |
| LammpsDump.BlockTotalsSnoc | LAMMPS/Cascade/script/021.system.parse_inner_energy_dissipation_work.py:37-42 | one more atom line adds its kinetic and potential energy to the running sums |
| LammpsDump.BlockTotalsErr | LAMMPS/Cascade/script/021.system.parse_inner_energy_dissipation_work.py:37-42 | a failing atom line is the failure of its whole block |
| LammpsDump.BlockEndAt | LAMMPS/Cascade/script/021.system.parse_inner_energy_dissipation_work.py:37 | the block scan passes every non-header line and stops at the first section header |
| LammpsDump.BlockTotalsFailAt | LAMMPS/Cascade/script/021.system.parse_inner_energy_dissipation_work.py:37-42 | a failure within the lines scanned so far is the failure of the whole atom block |
| LammpsDump.SkipToAtoms | LAMMPS/Cascade/script/021.system.parse_inner_energy_dissipation_work.py:29-30 | the loop stops at the first atoms header at or after its start, or reports that it would run off the end (IndexError) |
| LammpsDump.SumAtoms | LAMMPS/Cascade/script/021.system.parse_inner_energy_dissipation_work.py:33-42 | the atom loop stops at the next section header and returns the totals of the lines before it, or the first conversion error |
| LammpsDump.ReadFrame | LAMMPS/Cascade/script/021.system.parse_inner_energy_dissipation_work.py:25-49 | one pass of the loop for a timestep header reads the frame the definition describes and resumes where its atom block ends |
| LammpsDump.ReadEnergyDump | LAMMPS/Cascade/script/021.system.parse_inner_energy_dissipation_work.py:16-53 | the cursor loop returns the steps and the (optionally per-atom) kinetic and potential totals of every frame it meets, or its error |
| LammpsDump.SeriesAligned | LAMMPS/Cascade/script/021.system.parse_inner_energy_dissipation_work.py:27-49 | the three returned arrays are as long as the frame list, and entry k of each belongs to frame k |
| LammpsDump.AveragedIsMean | LAMMPS/Cascade/script/021.system.parse_inner_energy_dissipation_work.py:44-46 | with averaging on and a non-empty block the reported value times the atom count is the block total; otherwise the totals are reported unchanged |
| LammpsDump.BlockTotalsOk | LAMMPS/Cascade/script/021.system.parse_inner_energy_dissipation_work.py:37-42 | an atom block sums without error exactly when each line has at least seven tokens and tokens 5 and 6 convert |
| LammpsDump.NoTimestepsBetween | LAMMPS/Cascade/script/021.system.parse_inner_energy_dissipation_work.py:24-51 | lines without a timestep header contribute no frame |
| LammpsDump.EnergyFramesPerTimestep | LAMMPS/Cascade/script/021.system.parse_inner_energy_dissipation_work.py:24-51 | in a dump where every frame reaches its atoms header before the next frame starts, the energy reader yields exactly one frame per timestep header |
| LammpsDump.SamplesSnoc | LAMMPS/Cascade/script/002.pka_energy_small.py:40-47 | appending a sample appends its step to the steps and its value to the values |
| LammpsDump.ScanFirstAtoms | LAMMPS/Cascade/script/002.pka_energy_small.py:37-48 | the cursor loop returns, side by side, the step and the converted first atom line of every frame it meets, or its error |
| LammpsDump.FirstAtomsPerTimestep | LAMMPS/Cascade/script/002.pka_energy_small.py:37-48 | in a well-formed dump the first-atom scan yields exactly one sample per timestep header |
| LammpsDump.ResetTime | LAMMPS/Cascade/script/002.pka_energy_small.py:52-53 | resetting the time succeeds exactly when there is a first time to subtract |
| LammpsDump.ResetTimeMeaning | LAMMPS/Cascade/script/002.pka_energy_small.py:52-53 | the reset series starts at exactly 0 and keeps every difference between two times |
| LammpsDump.ReadPkaEnergy | LAMMPS/Cascade/script/002.pka_energy_small.py:20-55 | the reader returns the PKA's kinetic and potential energy per frame with its time in ps (reset to start at 0 on request), three arrays of one length, or its error |
| LammpsDump.SqDisplacements | LAMMPS/Cascade/script/1.plot_displacement_vs_time.py:26-28 | there is a displacement per position exactly when there is a first position; the first is 0 and none is negative |
| LammpsDump.ReadDumpDisplacement | LAMMPS/Cascade/script/1.plot_displacement_vs_time.py:8-31 | the reader returns one time in ps and one squared displacement from the first position per frame, or its error |
| Thermo.Fields | plot_lammps_evo_good_work_now.py:65-71 | the conversions read at most one value per column, and stop early exactly when one of them fails |
| Thermo.FieldsMeaning | plot_lammps_evo_good_work_now.py:65-71 | value k is column k converted, and the failure, if any, is that of the first column not read |
| Thermo.ParseTableErr | plot_lammps_evo_good_work_now.py:59-73 | an exception the try block lets through ends the parse, whatever follows |
| Thermo.ReadFields | plot_lammps_evo_good_work_now.py:65-71 | the conversion loop reads the columns in order up to the first failure, as the definition says |
| Thermo.ReadThermoTable | plot_lammps_evo_good_work_now.py:55-76 | the line loop returns the steps and column lists the definition gives for the lines after header_skip, or the exception the script does not catch |
| Thermo.ParseTableShape | plot_lammps_evo_good_work_now.py:63-73 | no column list is longer than the steps or than the column before it, and where rows are appended only once they fully converted every list has the same length |
| Thermo.SkippedLine | plot_lammps_evo_good_work_now.py:60-62 | a line that is too short or whose first token is not all digits changes nothing |
| Thermo.AcceptedHasStep | plot_lammps_evo_good_work_now.py:61-64 | the step conversion of an accepted data row cannot fail: it is the value of the digit token |
| Thermo.PartialRow | plot_lammps_evo_good_work_now.py:63-73 | a ValueError part-way through a row still appends its step and the columns before the failing one, so from aligned lists the failing column and those after it end one short |
| Thermo.FieldsOfShortRow | plot_lammps_evolution_Pot_Kin_Tot.py:47-53 | with increasing columns and convertible tokens, the conversions stop exactly at the first column past the end of the row, with IndexError |
| Thermo.ShortRow | plot_lammps_evolution_Pot_Kin_Tot.py:47-53 | a data row too short for the columns stops a parser that does not catch IndexError; a parser that catches it appends the step and exactly the columns the row has |
| Thermo.ToColumnsSnoc | cal_time_evol_Density.py:31-35 | one more row adds its step to the steps and each of its values to its column |
| Thermo.ParseTableIsRows | cal_time_evol_Density.py:21-41 | where rows are appended whole, or no data row fails part-way, the parse succeeds with the same outcome as reading row by row, and row k's step and values sit at index k of every list |
| Thermo.XAxisOrder | plot_lammps_evo_good_work_now.py:108-113 | with a positive timestep the x axis keeps the order of the steps, and without --ps it is the steps themselves |
| Thermo.KeysToPlot | plot_lammps_evo_good_work_now.py:130 | with no --appear every quantity is plotted in the default order, otherwise exactly the chosen ones |
| Thermo.Panels | plot_lammps_evo_good_work_now.py:136-143 | the 2-by-4 grid takes the plots exactly when there are at most eight |
| Thermo.PanelsDistinct | plot_lammps_evo_good_work_now.py:137-140 | every plot gets a panel inside the grid, no two plots share one, and the default seven quantities fit |
| Thermo.PairDatasets | plot_dens_vs_temp_multi.py:52-53 | inputs and labels are paired in order exactly when their counts agree, otherwise a ValueError |
| Thermo.ColorCycles | plot_dens_vs_temp_multi.py:58-73 | colours repeat every ten datasets and the first ten datasets all get different colours |
| Thermo.EnergyRun | plot_lammps_evolution_Pot_Kin_Tot.py:91-97 | the program exits with status 1 exactly when no step was parsed, and otherwise plots one time per step |
| Thermo.UsedLines | LAMMPS/Cascade/script/3.plot_msd_F_Be_Li.py:15 | every line kept is non-blank and does not start with # or Step |
| Thermo.MsdRowsFilterThenParse | LAMMPS/Cascade/script/3.plot_msd_F_Be_Li.py:14-20 | reading line by line is the same as keeping the used lines and then converting every one of them, the first failure ending the read |
| Thermo.ReadThermoMsd | LAMMPS/Cascade/script/3.plot_msd_F_Be_Li.py:7-22 | the four lists are as long as the used lines, and entry k of each holds the time and the last three values of used line k; a conversion or index failure is the reader's error |
| Thermo.MsdRowsErr | LAMMPS/Cascade/script/3.plot_msd_F_Be_Li.py:14-20 | nothing catches a failure: once a line fails, the read fails with that error |

## Left out

- Plotting is not modelled: matplotlib figures, rcParams, colour maps, axes, legends and saved figures, in every script. The exceptions are the decisions the scripts take before drawing: the panel grid and default keys, the dataset colours, the legend labels of the RDF comparison, and the x axis.
- File-system and process I/O is not modelled: glob listings, `open`/`readlines`, argparse, printed messages, and CSV, text or figure output. Inputs are sequences of lines or parsed tables. `LogFrames.WritesCsv` and `ZblOptimum.Optimise` model only the decision whether output is written.
- Text.ParseInt: Python's `int()` also accepts `_` between digits (`"1_000"`); the model rejects such text, which never occurs in the integer fields of LAMMPS dumps and logs.
- `parse_lammps_dump` in `cluster_analysis_pair-without-ovito-only-traj.py` (its seek/tell reader) is not part of this model. Each frame arrives as parsed type ids and positions.
- The scipy KD-tree queries are replaced by what they return, all pairs within the cutoff; their performance is not modelled.
- Python's `float()` is abstract (`toReal`). The model says nothing about which strings convert, nor about `nan` or `inf`.
- Real numbers are exact. Floating-point rounding is not modelled, and neither are the formatting in `round(r_peak, 4)` and `fmt="%.6f"`.
- Periodic boundaries are not applied, as in the scripts.
- pandas and numpy are modelled by what they compute: DataFrames as sequences of records, `groupby`/`crosstab`/`value_counts` as counts, `np.loadtxt` as a table of rows. pandas' `read_csv` of the kept log lines is not modelled; `LogFrames` takes the resulting tables as input. A cell of such a table is a number, a missing value or text. A column holds text when a log repeats its header line, because pandas then reads that column as strings.
- The Δr mean, percentile and histograms of `cluster_stable_pair_detector.py` (lines 188-223) are not modelled.
- Not part of this model: the thin ASE, pymatgen, dpdata and OVITO wrappers; spline interpolation and histogram normalisation; the scripts that only plot hard-coded data.
- EnergyError.CalculateRmse: reports the mean squared error, not its square root. The square root is monotone, so the ranking and the best keys are unaffected.
- LogFrames.TimePs: text in either column is a TypeError. pandas instead repeats a text `Dt` value when the `Step` value it is multiplied by is an integer.
- LogFrames.ProcessIndividualLogs: returns the breakpoints of the temperature figures only. The energy figure and the picosecond figures drawn after it are not modelled, so a file that lacks only `PotEng` or `TotEng` still contributes its breakpoint.
- StablePairs.DetectStable: the distances in `delta_r_all` and `delta_r_stable` are kept squared.
- StablePairs.CollectStableDeltas: the consecutive-sample distances are kept squared.
- LammpsDump.ReadDumpDisplacement: returns the squared displacement from the first position, not its norm.
- LammpsDump.SqDisplacements: squared distances, as above.
- Adsorption.HollowSites: the quadrilateral test on a four-atom group, which compares differences of norms, is the parameter `shapeOk`. The `neighbor_list` call that supplies the bridge pairs is an input.
- Adsorption.BridgeSites: the pairs are a Python set, whose iteration order depends on hashing, so the order of the visit is left open. The contract fixes the sites up to that order: one site per pair, in the order of the ghost `order` result.
- ClusterPair.NewNeighbours: the order in which a set of neighbours is queued is left open, as Python's set iteration order is. The components are the same in every order; only the order of atoms inside a component may differ.
- ClusterTables: the loaders take the reading of a frame number from a file name as the parameter `frameOf`. `FileFrame` is the concrete regex search the scripts use, and its own lemmas state what it finds.

## Findings

| source | as written | input that shows it | evidently intended | confidence | as-written member | corrected member |
|---|---|---|---|---|---|---|
| LAMMPS/Cascade/script/steps_collect_all.py:22-24 | for each stage after the first, `time_offset += simTime[-1]` adds the last merged time, which already includes the previous offset, to that offset | three stage files whose time column runs 0 to 1: the second stage is placed from 1 to 2, but the third starts at 3 (change points 1 and 3), leaving a gap from 2 to 3 | each stage continues from the last merged time, as `load_and_merge_data` in `LAMMPS/Cascade/collect.py` does, giving times 0,1,1,2,2,3 and change points 1,2 | not executed | LogMerge.StepsOffsetDoubleCounts | LogMerge.StepsMergeMatchesCollect |

`LogMerge.StepsMergeAsWritten` is the merge with the offset rule as written. `LogMerge.StepsMerge`, `LogMerge.StepsCollect` and the method `LogMerge.StepsCollectAll` use the corrected rule. `LogMerge.StepsMergeMatchesCollect` proves that, with every file readable, the corrected merge equals the merge of `collect.py`. Its continuity is stated by `LogMerge.MergeContinues`.
