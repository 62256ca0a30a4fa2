# Handover continuity and coverage, verified

This project models the computational heart of the satellite-coverage simulator and proves what its
numbers mean: the make-before-break (MBB) handover engine, the sharded coverage kernel that feeds it,
and the consumers and suppliers around them. Geometry enters as arbitrary functions (elevation,
azimuth, skyline, nearness), so every theorem holds for all orbits and all terrain.

All arithmetic is over exact integers and reals. Imperative code is modelled as methods over arrays,
maps and a class, each proved equal to a specification function or predicate; what the program
promises is then proved of that specification.

## The files

| file | contents |
|---|---|
| `Visibility.dfy` | in-view matrix of a cell, extraction of its maximal runs by edge detection |
| `RunOrder.dfy` | the stable sort of runs by end, then start |
| `ServingGraph.dfy` | handover edges, the forward-pass labels, and their optimality over all paths |
| `Schedules.dfy` | step-by-step serving schedules and their correspondence with paths (exchange argument) |
| `Gaps.dfy` | longest uncovered stretch |
| `Continuity.dfy` | the engine's methods (in-place label arrays, per-cell arrays) and the meaning of a verdict |
| `ContinuityLaws.dfy` | threshold, visibility and handover-rule laws |
| `PlaneRule.dfy` | for exactly which plane assignments the engine is complete and monotone under the plane rule |
| `SatelliteSubset.dfy` | dropping satellites never in view changes no output |
| `Availability.dfy` | served counts, chunk bounds, one-shot availability |
| `Scenes.dfy`, `Shards.dfy`, `Kernel.dfy`, `Coverage.dfy` | the kernel: terrain, pre-filter, shards, accumulators, drivers, reports |
| `Sweep.dfy`, `ShapeSweep.dfy` | minimum-size sweeps and the grid winner |
| `Sums.dfy`, `Oracle.dfy`, `Streaming.dfy` | beam-candidate aggregation, and its per-bucket merge with the engine's coverage |
| `Constellation.dfy`, `Walker.dfy` | plane identities under concatenation, the Walker lattice |
| `Refine.dfy`, `Blocks.dfy` | endpoint bisection, the brace-depth block reader |

## How to read the main results

A *schedule* assigns to every sample a serving satellite in view at that sample. `Sustains(g, a, b)`
says that at each switch both satellites are in view together for at least `b` consecutive samples
around the switch, so the new one is in view while the old one still serves. `Servable(g, b)` says
that such a schedule exists for the whole window. `ServableForward` adds that every switch goes to a
satellite that stays in view longer than the one it replaces and, when asked, changes plane. Neither
notion mentions runs, sorting or labels.

* Under every combination of rules the verdict is exactly `ServableForward`, its worst overlap is the
  largest `b` attainable, and its handover count is that of a schedule attaining it
  (`VerdictMeaning`).
* Without the different-plane rule the "stays in view longer" clause costs nothing
  (`ServingTheorem`): the engine is sound and complete for all schedules. The exchange argument is
  `FollowAny`.
* With the rule it costs nothing exactly when no plane can return: no known plane is shared by two
  satellites while a third has another known plane (`NoReturn`, a condition on `plane_uid` alone).
  Then every cell's verdict ranges over all schedules obeying the rule, and more visibility never
  hurts. Otherwise, for every threshold, there is a cell that has a schedule obeying the rule and is
  reported infeasible, and one that becomes infeasible when a satellite is seen one sample longer
  (`CompleteIffNoReturn`, `MonotoneIffNoReturn`; `ThreeSatellites` is the smallest such pair of cells).
  Whatever the planes, added satellites never hurt as long as the others keep their passes and
  planes (`AddedSatellitesNeverHurt`).
* What a run, a sweep or a merge reports is stated over the scene or the segments themselves: served
  samples and sightings as sets of samples and satellites, feasibility and overlap over schedules,
  gaps as uncovered stretches, pass fractions as sets of cells, merged values as pairs of points and
  samples (`ReportMeasured`, `RowOver`, `CellsCounted`).
* The kernel's documentation calls the sharded result identical to the monolithic one. That is so
  exactly when the shard keeps some satellite or every requested level `k` is at least 1
  (`ShardedEqualsMonolithic`): a shard that keeps none reports 0 served samples, while at `k <= 0`
  all samples are served (`EmptyShardMiscounts` is such a scene). The model follows the code.
* The per-bucket merge keys its sums by cell, so points of one cell are added together
  (`CollidingPointsCountTwice` reaches an availability of 2), and a bucket that does not name a point
  adds nothing for it. For any buckets the merged value of a cell is the count of its points over the
  buckets naming them, relative to the samples of all buckets. Over disjoint sample grids a point's
  value is its one-shot availability exactly when what the other points of its cell hold equals what
  the buckets that do not name it leave out, in the oracle's column and in the engine's; for the
  oracle at `k >= 1` that means that no other point of its cell is ever served (`MergeBuckets`).
* Physical-plane ids round the RAAN to a thousandth of a radian. They identify the planes of a Walker
  shell exactly up to 6283 planes (`WalkerPlaneUids`).

## Assumptions

* The satellite pre-filter is a superset of visibility (`Scene.PrefilterSound`).
* The window has at least one sample and the time step is positive.
* The completion order of parallel workers is an arbitrary permutation.

## Model

| member | source | states |
|---|---|---|
| Visibility.EdgeLists | ngso_sls/coverage/continuity.py:40-46 | rising and falling edges, with the border samples inserted, pair up: the k-th start and the k-th end are those of the k-th maximal run |
| Visibility.ColumnRuns | ngso_sls/coverage/continuity.py:36-48 | zipping the two lists gives the satellite's runs in time order; an empty column gives none |
| Visibility.IntervalsFromInview | ngso_sls/coverage/continuity.py:31-49 | the runs of all satellites, satellite by satellite |
| Visibility.IntervalsExact | ngso_sls/coverage/continuity.py:31-33 | the extracted list holds the maximal in-view runs and nothing else |
| Visibility.PaintRoundTrip | ngso_sls/coverage/continuity.py:31-49 | painting the runs rebuilds the matrix, and extracting again gives the same list |
| Visibility.RunsOfOneSatDisjoint | ngso_sls/coverage/continuity.py:31-33 | two runs of one satellite that meet or touch are the same run, so distinct ones are separated by a gap |
| RunOrder.StableSortSorts | ngso_sls/coverage/continuity.py:72 | the order relaxed in is a permutation, sorted by end then start, ties in extraction order |
| ServingGraph.Graph.LabelHasPath | ngso_sls/coverage/continuity.py:193-211 | every label, at any moment of the pass, belongs to a real path with that bottleneck and that many handovers |
| ServingGraph.Graph.LabelBoundsPath | ngso_sls/coverage/continuity.py:81-99 | no path of strictly later ends is wider than the final label of its last run |
| ServingGraph.Graph.ForwardPassOptimal | ngso_sls/coverage/continuity.py:183-211 | one forward pass over end-sorted runs gives every run the maximum bottleneck over all increasing-end paths to it, under any combination of the satellite and plane rules |
| ServingGraph.Graph.LabelFollowsFirst | ngso_sls/coverage/continuity.py:208-211 | among equally wide paths the first found is counted: a label's handovers are one more than those of the earliest run offering its bottleneck, and a run in view at the first sample keeps handover count 0 |
| ServingGraph.Graph.BestGoalWidest | ngso_sls/coverage/continuity.py:212-217 | the chosen goal's label is the widest over all paths that reach the last sample, and some path attains it with the reported handovers |
| ServingGraph.Graph.BestGoal | ngso_sls/coverage/continuity.py:212-217 | every earlier goal than the chosen one is strictly narrower, none is wider |
| Schedules.SharedIsOverlap | ngso_sls/coverage/continuity.py:205-207 | the overlap of two runs reaches b exactly when both satellites share a window of b samples around the switch |
| Schedules.HandoversExact | ngso_sls/coverage/continuity.py:209-211 | the handovers of a schedule are the samples after which another satellite serves |
| Schedules.PathSchedule | ngso_sls/coverage/continuity.py:193-211 | soundness: each path is walked by a schedule that sustains its bottleneck, with one handover per edge |
| Schedules.FollowForward | ngso_sls/coverage/continuity.py:193-211 | every schedule whose switches extend service is followed run by run by a path at least as wide, also under the plane rule |
| Schedules.FollowAny | ngso_sls/coverage/continuity.py:81-99 | exchange argument: any schedule is dominated by a path of strictly later ends with no smaller bottleneck, when the plane rule is off or the schedule's satellites are all in different known planes |
| Schedules.NoReturnSeparates | ngso_sls/coverage/continuity.py:200-204 | when no plane can return, a schedule changing plane at every switch never uses two satellites of one plane |
| Schedules.SchedulesArePaths | ngso_sls/coverage/continuity.py:81-90 | skipping targets that do not end later loses nothing: when the plane rule is off or no plane can return, paths of width b exist exactly when schedules obeying the rules and sustaining b do |
| Schedules.ForwardSchedulesArePaths | ngso_sls/coverage/continuity.py:197-207 | under any rules, paths of width b exist exactly when service-extending schedules obeying the rules and sustaining b do |
| Continuity.RelaxInterval | ngso_sls/coverage/continuity.py:191-211 | relaxing in place all handovers out of one run, skipping by the four tests in order, leaves exactly the specified labels |
| Continuity.ForwardPass | ngso_sls/coverage/continuity.py:184-211 | the two label arrays end as the labels of the whole pass |
| Continuity.GoalVerdict | ngso_sls/coverage/continuity.py:212-219 | the first widest goal decides the verdict; no handover is reported as no worst overlap |
| Continuity.MbbContinuityCell | ngso_sls/coverage/continuity.py:52-110 | for every matrix and threshold: feasible iff some make-before-break schedule meets the threshold, the worst overlap is the best sustainable, and it is absent exactly when one satellite covers the window |
| Continuity.MbbContinuityCellReq | ngso_sls/coverage/continuity.py:171-219 | under any rules, feasible iff a service-extending schedule obeying them meets the threshold, with overlap and handovers of a best one; over all schedules obeying them when no plane can return; on every path, also those with a hard-coded value, the gap is the longest run of samples nobody covers |
| Continuity.ContinuityMap | ngso_sls/coverage/continuity.py:113-152 | per-cell arrays hold each cell's verdict, -1 for absent values, and the gap exactly on the full-requirement path; on either path each entry is stated over schedules at the given threshold and rules, and over uncovered stretches, alone |
| Continuity.LongestDarkIsWorstGap | ngso_sls/coverage/continuity.py:155-168 | the reported gap is the length of a stretch of samples with no satellite in view, and no such stretch is longer |
| Continuity.VerdictIsWidestPath | ngso_sls/coverage/continuity.py:212-219 | feasible iff a full path meets the threshold; the handover count is the length of a real path attaining the reported bottleneck, and no path is wider |
| Continuity.VerdictMeaning | ngso_sls/coverage/continuity.py:171-219 | under any rules the verdict is a statement about schedules: feasibility, the best sustainable overlap, and a schedule attaining both overlap and handover count |
| Continuity.NoHandoverNeeded | ngso_sls/coverage/continuity.py:58-61 | a feasible verdict without worst overlap is given exactly when one satellite is in view throughout |
| Continuity.CompleteWithoutReturn | ngso_sls/coverage/continuity.py:171-219 | when the plane rule is off or no plane can return: feasible iff some schedule obeying the rules meets the threshold, and the worst overlap is the best over all of them |
| Continuity.ServingTheorem | ngso_sls/coverage/continuity.py:52-110 | without the plane rule: feasible iff some make-before-break schedule spans the window, and the worst overlap is the best over all of them |
| Continuity.FeasibleIsLit | ngso_sls/coverage/continuity.py:218-219 | a feasible cell is covered at every sample, so its gap is 0 |
| Gaps.LongestDarkExact | ngso_sls/coverage/continuity.py:155-168 | the scan's result is the length of some uncovered stretch and no uncovered stretch is longer |
| Gaps.MergedWorstGapSteps | ngso_sls/coverage/continuity.py:155-168 | painting the runs and scanning once gives the longest uncovered stretch of their union |
| Gaps.IntervalsLightGrid | ngso_sls/coverage/continuity.py:158-160 | the union of the extracted runs is the set of samples with some satellite in view |
| ContinuityLaws.ThresholdDuality | ngso_sls/coverage/continuity.py:177-217 | the analysis at threshold 1 decides every threshold: feasible iff no handover is needed or the bottleneck reaches it, with the same bottleneck |
| ContinuityLaws.StricterThresholdNoBetter | ngso_sls/coverage/continuity.py:177 | feasibility and overlap are antitone in the threshold |
| ContinuityLaws.PlaneRuleNoBetter | ngso_sls/coverage/continuity.py:201-204 | the plane rule can only reduce feasibility and overlap |
| ContinuityLaws.VisibilityMonotone | ngso_sls/coverage/continuity.py:83-105 | when the plane rule is off or no plane can return, any pointwise larger in-view matrix, with more or renumbered satellites of the same planes, is never worse |
| ContinuityLaws.AddedSatellitesNeverHurt | ngso_sls/coverage/continuity.py:193-211 | under any rules, adding satellites to those in place, whose passes and planes stay, is never worse |
| ContinuityLaws.DifferentSatRuleIdle | ngso_sls/coverage/continuity.py:67-95 | the different-satellite rule never changes any output |
| ContinuityLaws.PlanesIdleWithoutRule | ngso_sls/coverage/continuity.py:122-148 | without the plane rule the two engines behind the map give the same verdict |
| ContinuityLaws.PlaneRuleIdleOnDistinctPlanes | ngso_sls/coverage/continuity.py:201-204 | with a known plane per satellite, all distinct, the plane rule never changes any output |
| PlaneRule.CompleteIffNoReturn | ngso_sls/coverage/continuity.py:200-204 | for every threshold: on all cells the verdict ranges over all schedules obeying the plane rule, exactly when no plane can return |
| PlaneRule.MonotoneIffNoReturn | ngso_sls/coverage/continuity.py:200-204 | for every threshold: under the plane rule seeing more is never worse on any cell, exactly when no plane can return |
| PlaneRule.PlaneRuleIncomplete | ngso_sls/coverage/continuity.py:200-204 | whenever a plane can return, a cell of three passes with a schedule obeying the rule that is reported infeasible |
| PlaneRule.PlaneRuleNotMonotone | ngso_sls/coverage/continuity.py:200-204 | whenever a plane can return, a feasible cell that seeing one satellite a sample longer turns infeasible |
| PlaneRule.ThreeSatellites | ngso_sls/coverage/continuity.py:200-204 | the smallest instance of both: three satellites over four samples |
| SatelliteSubset.UnseenSatellitesDroppable | ngso_sls/pipeline.py:279-281 | dropping satellites never in view keeps verdict, bottleneck, handover count and gap of a cell, under all rules |
| Availability.BoundsTile | ngso_sls/pipeline.py:137-138 | the chunk bounds cover the window once, in order, for any chunk size |
| Availability.InViewCountExact | ngso_sls/pipeline.py:296 | the count at a sample is the number of satellites in view |
| Availability.ServedExact | ngso_sls/pipeline.py:297-298 | the served count is the number of samples with at least k satellites in view |
| Availability.SatSumExact | ngso_sls/pipeline.py:299 | the satellite sum is the number of pairs of a sample and a satellite in view at it |
| Availability.ServedSplits | ngso_sls/pipeline.py:297-299 | counts and sums over adjacent chunks add up |
| Availability.ChunkedIsOneShot | ngso_sls/coverage/availability.py:4-8 | accumulated counts over the window length are the one-shot availability, for every k |
| Availability.SatSumIsSumOfServed | ngso_sls/pipeline.py:297-299 | the satellite sum of a cell is the sum of its served counts over k = 1 to the number of satellites |
| Availability.ServedAntitone | ngso_sls/pipeline.py:297-298 | more satellites required, fewer samples served |
| Availability.ServedWithinSatSum | ngso_sls/pipeline.py:297-299 | the satellite sum of a cell is at least k times its served count at k |
| Scenes.Scene.InViewAboveSkyline | ngso_sls/pipeline.py:287-295 | a satellite is in view exactly at or above the minimum elevation and, with terrain, the skyline of the bin spanning its azimuth |
| Scenes.Scene.AzimuthBinSpans | ngso_sls/pipeline.py:293 | azimuths outside all bins fall into the nearest one |
| Scenes.Scene.RelevantTo | ngso_sls/coverage/prefilter.py:41-57 | the mask keeps, in ascending order, exactly the satellites near some cell of the shard at some time |
| Scenes.Scene.ShardKeepsSeen | ngso_sls/pipeline.py:267-281 | with a sound pre-filter a shard keeps every satellite ever in view of its cells |
| Shards.AssignShards | ngso_sls/grids/shards.py:4-15 | refused exactly when the shard resolution is finer than the cells'; otherwise each parent's group lists its cells in order |
| Shards.GroupsPartition | ngso_sls/grids/shards.py:11-15 | the groups own every cell exactly once |
| Kernel.AccumulateChunks | ngso_sls/pipeline.py:282-301 | after all chunks the counters hold the numbers of served samples and of sightings over the whole window, and the retained cube is the in-view series |
| Kernel.ComputeShard | ngso_sls/pipeline.py:259-310 | no result exactly for shards without satellites; otherwise each row carries its cell's totals over the kept satellites, which are the served samples, sightings, schedules and uncovered stretches of the cell's full matrix |
| Kernel.Accumulators.constructor | ngso_sls/pipeline.py:146-170 | the arrays start with the default totals: zero counts, infeasible, -1, -1, gap of the whole window |
| Kernel.Accumulators.Apply | ngso_sls/pipeline.py:188-197 | counts are added and continuity results assigned for the shard's own cells, nothing else changes |
| Kernel.ApplyShard | ngso_sls/pipeline.py:188-197 | whichever shard is applied next, its cells get their totals and all others keep theirs |
| Kernel.RunSerial | ngso_sls/pipeline.py:219-222 | the serial driver leaves every cell with the totals of its shard |
| Kernel.RunParallel | ngso_sls/pipeline.py:199-213 | so does the parallel one, for every completion order and every order of application |
| Kernel.ShardedEqualsMonolithic | ngso_sls/pipeline.py:57-62 | every output of a cell equals the monolithic one exactly when its shard keeps a satellite or all levels are at least 1 |
| Kernel.ShardTotalsAreMeasured | ngso_sls/pipeline.py:57-62 | whatever the sharding, a cell's totals count on its own full matrix; only levels below 1 of a shard without satellites do not |
| Kernel.EmptyShardMiscounts | ngso_sls/pipeline.py:57-62 | a concrete scene whose empty shard reports nothing served at k = 0 where the monolithic result is everything |
| Kernel.UnseenTotals | ngso_sls/pipeline.py:168-170 | the defaults are the right totals of a cell that sees nothing exactly when all levels are at least 1 |
| Coverage.MinOverlapStepsLeast | ngso_sls/pipeline.py:157-160 | the threshold is the least number of shared samples whose guaranteed duration reaches the requested overlap |
| Coverage.OverlapSecondsGuaranteed | ngso_sls/pipeline.py:236-241 | in every report of a run, a cell with handovers reports at least the requested seconds; -1 is reported exactly for cells infeasible or without handover |
| Coverage.ShardsFor | ngso_sls/pipeline.py:125-131 | without sharding one shard of all cells, otherwise each shard holds exactly the cells with one parent; an error exactly when the shard resolution is finer than the cells' |
| Coverage.RunCoverage | ngso_sls/pipeline.py:76-248 | fails exactly without satellites, cells or k levels, with too fine a shard resolution or too coarse a step; otherwise, for any sharding, chunk size, worker count and completion order, each report gives the cell's share of served samples, mean satellites in view, whether a schedule under the requested rules sustains the least sufficient overlap, the best such overlap in seconds with its handovers, and the longest uncovered stretch in seconds; it is its own shard's report and, for levels of at least 1, the one-shot one |
| Coverage.TerrainNeverHelps | ngso_sls/pipeline.py:288-299 | a terrain skyline never raises a count and, when the plane rule is off or no plane can return, never creates feasibility or widens a handover |
| Coverage.FeasibleIsAlwaysServed | ngso_sls/pipeline.py:240-243 | a feasible cell is served at k = 1 at every sample and has gap 0 |
| Sweep.FeasibleReaches | ngso_sls/sweep.py:34-38 | a feasible cell has k = 1 availability exactly 1 |
| Sweep.RowOfExact | ngso_sls/sweep.py:59-69 | pass fractions are the cells reaching the target, the MBB fraction the feasible cells, out of all cells; means are sums over all cells divided by their number |
| Sweep.RowsOrdered | ngso_sls/sweep.py:59-69 | in each row the pass fraction and the mean availability fall with k, the mean availability is at least target times pass fraction and, times k, at most the mean satellites in view; the MBB fraction is at most the k = 1 fraction for targets up to 1 |
| Sweep.MinimumSizesOrdered | ngso_sls/sweep.py:74-81 | the minimum size grows with k, and an MBB minimum implies a k = 1 minimum no larger |
| Sweep.Measure | ngso_sls/sweep.py:50-69 | fails exactly when its run does; a candidate's row is ordered, counts the cells of its own run's reports, each measured on the cell without the plane rule, and for levels of at least 1 those are the one-shot reports |
| Sweep.MinSatSweep | ngso_sls/sweep.py:22-94 | fails exactly when some size does; otherwise one row per size measured on that size, each minimum the least size meeting the grade, None when there is none, and the minima ordered |
| ShapeSweep.MarkWinner | ngso_sls/sweep.py:138-141 | a candidate ends marked iff it passes, no passing one has fewer satellites or as many and fewer planes, and it is the first of equals |
| ShapeSweep.OneWinner | ngso_sls/sweep.py:138-141 | as soon as a candidate passes there is a winner, and only one |
| ShapeSweep.ShapeAt | ngso_sls/sweep.py:113-114 | the grid runs plane count a with b-th satellites per plane at position a times the number of the latter plus b |
| ShapeSweep.MultiShapeSweep | ngso_sls/sweep.py:97-151 | fails exactly for oversized grids and when some shape's run does; otherwise candidate i is measured on shape i, its gate flag says whether its MBB fraction meets the grade, the winner is marked and the minima are ordered |
| Oracle.Series | ngso_sls/spacetime/oracle.py:73-77 | one flag per sample: the series as it is, or whether any platform has the sample |
| Oracle.PlatformSeen | ngso_sls/spacetime/oracle.py:75-82 | a true entry of any platform's row shows the segment's satellite at start plus i times the resolution |
| Oracle.SilentSample | ngso_sls/spacetime/oracle.py:75-82 | a segment whose platforms all miss a time adds no satellite there |
| Oracle.PlatformRowsIrrelevant | ngso_sls/spacetime/oracle.py:76-77 | which platform has a sample is irrelevant, so platforms may be reordered |
| Oracle.SilentPlatformIrrelevant | ngso_sls/spacetime/oracle.py:76-77 | one more platform that sees nothing changes nothing |
| Oracle.EnterSamples | ngso_sls/spacetime/oracle.py:68-82 | a segment's samples enter the grid whether accessible or not, and its satellite the slots where some platform row is accessible |
| Oracle.Aggregate | ngso_sls/spacetime/oracle.py:58-82 | the nested dictionary holds, per point and time, exactly the satellites some live segment shows accessible |
| Oracle.BeamCandidatesToCoverage | ngso_sls/spacetime/oracle.py:44-109 | each point once, with its fraction of the global sample grid having at least k distinct satellites, and as mean the pairs of a sample and a satellite accessible at it over the number of samples; an error exactly when no segment names a point |
| Oracle.OrderAndRepetitionIrrelevant | ngso_sls/spacetime/oracle.py:58-82 | reordered or repeated segments change no grid, point, availability or mean |
| Oracle.ExtraAntennaIrrelevant | ngso_sls/spacetime/oracle.py:49-50 | another antenna of the same satellite with the same samples changes nothing |
| Streaming.JoinServed | tools/finish_jio_report_data.py:93-98 | over disjoint sample grids the served samples of two buckets add up |
| Streaming.EngineCoverage | ngso_sls/spacetime/oracle.py:133-136 | per point the share of the sample times at which the engine has at least k satellites in view |
| Streaming.EngineTallies | ngso_sls/spacetime/oracle.py:133-136 | those samples add up over disjoint sample grids too |
| Streaming.AddPointsAt | tools/finish_jio_report_data.py:95-99 | adding a bucket gives each cell, in both columns, the counts of all its points there, and nothing to other cells |
| Streaming.MergedStep | tools/finish_jio_report_data.py:77-99 | after each bucket every cell holds the counts of its points over the buckets naming them, whatever the buckets share |
| Streaming.MergedByPoint | tools/finish_jio_report_data.py:93-99 | adding up bucket by bucket or point by point is the same |
| Streaming.WholeCount | tools/finish_jio_report_data.py:93-99 | over disjoint grids a point's count over all segments is what the buckets naming it hold plus what the others leave out |
| Streaming.MergedPairs | tools/finish_jio_report_data.py:93-99 | over disjoint grids a cell's count is the number of pairs of a point and a sample, in a bucket naming it, with at least k satellites, in either column |
| Streaming.LonePointCounted | tools/finish_jio_report_data.py:99-106 | the engine's value of a cell of one point that every bucket names is the share of all samples with at least k satellites in view |
| Streaming.OneShotIffBalanced | tools/finish_jio_report_data.py:100-106 | over disjoint grids a point's merged value is its one-shot value, in either column, exactly when the other points of its cell hold what the buckets not naming it leave out |
| Streaming.MergedIsOneShot | tools/finish_jio_report_data.py:100-105 | for the oracle at levels of at least 1: exactly when no other point of its cell is ever served |
| Streaming.MergeBuckets | tools/finish_jio_report_data.py:73-106 | streaming against one-shot: for any buckets each cell's merged counts over all samples, in both columns; over disjoint grids these are pairs of points and samples with at least k satellites, and the exact condition holds under which a point's value is its one-shot one; an error exactly when a bucket names no point |
| Streaming.CollidingPointsCountTwice | tools/finish_jio_report_data.py:95-98 | a bucket of two segments whose points share a cell has a merged availability of 2 |
| Constellation.PlaneParts | ngso_sls/constellation/model.py:49-57 | the offset loop gives each model's known uids the next free range |
| Constellation.Concat | ngso_sls/constellation/model.py:41-59 | an error exactly for an empty list; otherwise satellite i of model m sits at its place with its own elements, slot, epoch and name, shell m, and a plane known exactly when it was |
| Constellation.ConcatKeepsPlaneIdentity | ngso_sls/constellation/model.py:49-57 | known planes are shared afterwards iff same model and shared before; unknown stays unknown |
| Constellation.NewUidExact | ngso_sls/constellation/model.py:49-57 | a known uid moves up by one more than the largest uid placed before its model |
| Constellation.ConcatKeepsPlaneVerdicts | ngso_sls/coverage/continuity.py:201-204 | different-plane verdicts within a model are unchanged, and across models hold whenever both planes are known |
| Constellation.ConcatAssociative | ngso_sls/constellation/model.py:49-57 | nested concatenation gives the same plane uids as one concatenation |
| Constellation.FlatAt | ngso_sls/constellation/model.py:44-48 | every satellite keeps its elements and metadata at its own place in the stack |
| Walker.UidIsKeyIdentity | ngso_sls/constellation/model.py:62-67 | two satellites share a physical-plane uid iff their plane keys are equal, and uids are ordered like keys |
| Walker.UidRange | ngso_sls/constellation/model.py:66 | uids start at 0 and stay below the number of distinct keys |
| Walker.WalkerPattern | ngso_sls/constellation/model.py:84-87 | refused exactly when the total does not split evenly over the planes |
| Walker.Pattern.PositionsDistinct | ngso_sls/constellation/model.py:88-91 | no two of the T satellites share RAAN and anomaly |
| Walker.Pattern.SlotsPerPlane | ngso_sls/constellation/model.py:88-90 | each plane's RAAN is held by exactly its own block of S satellites |
| Walker.Pattern.ClosedUnderPlaneStep | ngso_sls/constellation/model.py:88-91 | moving one plane on and F phase units maps the lattice into itself, across the plane seam too |
| Walker.WalkerPlaneUids | ngso_sls/constellation/model.py:62-67 | with RAAN rounded to three decimals, half to even, the physical-plane uid identifies the plane index in a Walker shell for every reference RAAN exactly up to 6283 planes |
| Refine.NBisectItersLeast | ngso_sls/coverage/refine.py:14-16 | the count is the least positive one whose halvings bring the bracket below the tolerance |
| Refine.RefineCrossing | ngso_sls/coverage/refine.py:19-34 | an error exactly without sign change; otherwise the midpoint of a bracket that still holds the sign change and is no wider than the tolerance |
| Refine.RefinedNearCrossing | ngso_sls/coverage/refine.py:19-34 | a single crossing is located within half the tolerance |
| Blocks.IterBlocks | ngso_sls/spacetime/modelgen.py:29-41 | the line loop computes the reader's state machine, so on the printed form of balanced blocks it yields exactly their bodies |
| Blocks.WhiteSpaceExact | ngso_sls/spacetime/modelgen.py:33 | the white space stripped is the 29 code points of Python's str.isspace |
| Blocks.HeaderExact | ngso_sls/spacetime/modelgen.py:33 | a block opens exactly at a line of the header text and white space |
| Blocks.PlainHeader | ngso_sls/spacetime/modelgen.py:33 | the header line with its newline opens a block; an indented or closed one does not |
| Blocks.DeltaExact | ngso_sls/spacetime/modelgen.py:36 | a line moves the depth by its number of opening less closing braces |
| Blocks.JoinExact | ngso_sls/spacetime/modelgen.py:38 | a block's text is its lines in order with nothing between |
| Blocks.ReadPrinted | ngso_sls/spacetime/modelgen.py:29-41 | reading the printed form of any balanced blocks, with any lines between them, returns exactly their bodies |
| Blocks.RecoveredIffBalanced | ngso_sls/spacetime/modelgen.py:36-41 | a printed block is recovered exactly when its depth returns to zero at its closing line and not before |

## Left out

- Orbital propagation, frames, elevation, azimuth and cap geometry: replaced by arbitrary functions; that the dilated cap really is a superset of visibility is an assumption.
- Floating-point rounding: all numbers are exact; the logarithm and ceiling of the iteration count are read as the least sufficient number of halvings.
- H3 cells and parents, calendar time, tables and terrain files: parents and cell keys are arbitrary functions.
- Process pools and forking: only the order in which results are computed and applied is modelled.
- The choice and sorting of the k levels, progress callbacks and the single-k compatibility output of the coverage run.
- The coordinates and sample count the per-bucket merge keeps for each cell, its second k level, and the statistics drawn from its columns.
- Parsing of segment identifiers: a segment carries its parsed point and antenna, or none.
- A cell without any sample (an empty window): schedules are stated for windows of at least one sample.
- The Walker lattice is stated relative to the shell's reference RAAN and phase; 2 pi is the decimal value of the program's constant, taken exactly.
- Explorer widgets, plots, notebooks, store clients, scenario builders and the remaining report scripts.
