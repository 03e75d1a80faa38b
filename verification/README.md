# Verification of the analysis kernels

A Dafny model of the numerical, graph and evidence kernels of the repository, with proofs of what they compute. The
modules follow the source files:

| source | modules |
|---|---|
| `src/analysis/gauge.rs` | `Matching`, `Hungarian`, `Gauge` |
| `src/analysis/tomography.rs` | `SkillBank`, `MergeLaws`, `Ancestry` |
| `src/analysis/persistent.rs` | `Forest`, `Clustering` |
| `src/analysis/pythagoras_topology.rs` | `EventOrder`, `EventList`, `TriangleCount`, `SpanningTree`, `Persistence`, `CyclePairing`, `EuclideanDistance`, `Topology` |
| `src/analysis/temporal_tracking.rs` | `Cholesky`, `MeasurementGraph`, `ConditionEstimate`, `LinearTrend`, `Inversion`, `DriftLaws` |
| `src/analysis/sbas.rs` | `EdgeResiduals`, `Trajectory`, `DriftLaws` |
| `src/analysis/active.rs` | `PosteriorUpdate`, `ActiveStep`, `ActivePlan`, `ActiveLaws`, `Assimilation`, `OrderIndependence`, `ActiveAccount` |
| `src/analysis/protected.rs`, `src/analysis/protected_map.rs` | `Spectral`, `SafeSubspace`, `Protection`, `DirtySpectrum`, `ProtectionLaws`, `MetricDual` |
| `src/analysis/trust_region.rs` | `TrustRegion`, `CausalContraction`, `CausalLaws` |
| `src/analysis/transport.rs`, `src/foundation/linalg.rs` | `RootMeanSquare`, `AffineObjective`, `TrainingError`, `Transport` |
| `quality/experiments/capability_statistics.py` | `Binomial`, `PairedStatistics` |
| `build.rs` | `BuildIdentity` |
| `quality/experiments/prospective_capability_evidence.py` | `EvidenceJournal` |

`Prelude`, `Sorting`, `Text`, `Graph`, `Vectors`, `LeastSquares` and `RidgeFit` hold what several of them share: graph
connectivity and component counts, dot products and quadratic forms, weighted least squares and its normal equations.
`Examples` works through inputs at the edges of what is accepted.

Code that the source writes as loops over arrays or as objects with fields is a method or a class here, proved against
a specification function or predicate; the laws are lemmas about those specifications. Numbers of type `f64` are
`real`. Kernels defined elsewhere are parameters with a stated contract: the cosine (absolute value at most one, may
refuse a pair), the square root (`IsSqrt`), the logarithm (increasing; products to sums where gains are added up), the
linear solver (any answer it gives solves the system), the eigen-decomposition (an orthonormal eigenbasis), the
covariance validator (accepts exactly the nonempty symmetric positive semidefinite matrices), the canonical encoding
and its parser (mutually inverse) and the digest (a function, injective where an identification is claimed). The
largest number of the float type is a parameter too.

## Where the code does less than its name or its documentation says

* `betti_1_cycles` is reported as 0 whenever there are fewer edges than points, even if a cycle exists: on the points
  0, 1, 2 and 100 with threshold 2 one cycle is born, and none is reported (`Topology.BettiOneMissesCycle`). On every
  filtration and threshold it is the number of edges that closed a cycle if and only if there are at least as many
  edges as points, or no cycle at all (`Topology.BettiOneExact`).
* The uniform trust region leaves a proposal of cost at most 1e-18 unscaled, so it can exceed a smaller budget
  (`TrustRegion.NegligibleOverrunsBudget`); `TrustRegion.ApplyUniform` says exactly when the budget is met.
* A comment in the time-series inversion calls the normal-equations matrix positive definite; without regularisation
  it is so, and the inversion succeeds, exactly when every epoch is connected to epoch 0 (`Inversion.SbasInversion`).
* The journal's six-digit names sort correctly only below one million records (`EvidenceJournal.OrderBreaks`), so a
  longer journal that was written correctly is refused on reading (`EvidenceJournal.AcceptedIffInRange`).
* An accepted projection need not be orthogonal to the protected directions. All accepted updates of a valid cortex
  come out orthogonal if and only if some direction has no energy in the metric (so nothing is accepted), or no
  eigenvalue is kept (so nothing is accepted), or no Gram eigenvalue lies strictly above zero and at most at the
  tolerance (`DirtySpectrum.CortexExactIff`); `DirtySpectrum.DirtyAccepted` builds an accepted update that does not.
* A field without evidence that aligns with a field with evidence raises the support above the evidence count
  (`SkillBank.InflatedExample`). Over a run whose incoming fields all carry evidence support stays the number of
  distinct observations (`SkillBank.RunCountsObservations`); for one incoming field it stays exact, whatever the
  kernels and the threshold, if and only if no field of the bank could be so inflated
  (`SkillBank.ExactIffNothingInflates`).
* A trajectory's residuals are never zero for observations that report a change, even when the observations are
  consistent: the positive ridge keeps them from being reproduced (`Trajectory.ResidualLaws`).
* The condition estimate of an inversion is the largest number exactly when some epoch is in no pair and the
  regularisation is at most 1e-15 (`ConditionEstimate.EstimateExact`); it says nothing of pairs that split the epochs.

## Model

| member | source | states |
|---|---|---|
| Matching.WeakDuality | src/analysis/gauge.rs:22-84 | under any feasible potentials, every partial matching's total is at most the bound the potentials give |
| Matching.TightIsOptimal | src/analysis/gauge.rs:22-84 | a full matching whose pairs are all tight has the largest total of all partial matchings |
| Hungarian.RelaxColumns | src/analysis/gauge.rs:41-55 | after scanning from one row every open column keeps the least reduced cost over all scanned rows and the column it came from, and the smallest one is picked |
| Hungarian.ShiftPotentials | src/analysis/gauge.rs:56-63 | exactly the marked columns and their rows move by delta, in opposite directions; the slacks of the others fall by delta; no row is shifted twice |
| Hungarian.ShiftKeepsFeasible | src/analysis/gauge.rs:56-63 | shifting by the least open slack keeps every reduced cost nonnegative |
| Hungarian.FindFreeColumn | src/analysis/gauge.rs:35-68 | the search ends at an unused column reached by a chain of tight steps, with feasible potentials and the matched pairs still tight; each pass marks a new column |
| Hungarian.Augment | src/analysis/gauge.rs:69-76 | flipping the alternating path leaves every earlier row and the new one matched once, all pairs tight |
| Hungarian.InsertRow | src/analysis/gauge.rs:33-77 | one outer iteration extends a tight matching of the first i-1 rows to the first i rows under feasible potentials |
| Hungarian.Solve | src/analysis/gauge.rs:29-77 | all rows end matched, tight and feasible, for every nonnegative cost matrix |
| Gauge.FillCosts | src/analysis/gauge.rs:23-28 | succeeds exactly when every pair has a cosine; the square matrix is one minus its absolute value, padded with one |
| Gauge.ReadAssignment | src/analysis/gauge.rs:78-84 | the answer is the full matching with padding rows and columns cut away |
| Gauge.ReadSigns | src/analysis/gauge.rs:85-95 | signs follow the matched cosines, the sum is the matching's total of absolute cosines, the count is the number of matched rows |
| Gauge.SquareOptimal | src/analysis/gauge.rs:22-77 | the finished square assignment is injective and maximal among all partial matchings of the square |
| Gauge.TrimOptimal | src/analysis/gauge.rs:78-84 | cutting the padding away leaves a matching at least as good as every partial matching of the rectangle |
| Gauge.TrimCount | src/analysis/gauge.rs:78-84 | what is left is injective and matches exactly min(rows, columns) rows |
| Gauge.AssignPadded | src/analysis/gauge.rs:29-84 | from padded costs to a best matching: injective, min(rows, columns) rows, maximal total |
| Gauge.AlignBases | src/analysis/gauge.rs:14-101 | succeeds exactly on nonempty bases of one dimension with defined cosines; the alignment is a best matching with its signs and mean absolute cosine |
| SkillBank.GlobalFieldAlignment | src/analysis/tomography.rs:218-253 | succeeds exactly for a threshold in [0,1] and comparable directions; the claims are the best global assignment cut at the threshold |
| SkillBank.CutAlignment | src/analysis/tomography.rs:241-252 | a claim exists for exactly the assigned pairs reaching the threshold, with the sign of their cosine |
| SkillBank.GoodAlignmentClaims | src/analysis/tomography.rs:241-252 | no prior field is claimed twice and every claim names a prior |
| SkillBank.MergeRefused | src/analysis/tomography.rs:331-370 | a merge fails exactly for repeated digests, partly shared evidence, or an independent blend without a direction |
| MergeLaws.SignFree | src/analysis/tomography.rs:354-390 | turning the incoming direction around together with its sign changes nothing that a merge writes, nor whether it is refused |
| MergeLaws.MergeDirected | src/analysis/tomography.rs:376-390 | the direction written is the normalised sum of both directions with their weights and the incoming one's sign, as seen from every vector; a replacement writes the turned incoming direction |
| MergeLaws.Reinforces | src/analysis/tomography.rs:376-390 | the vector handed to normalisation keeps at least the prior's weight along the prior's direction whenever sign and inner product agree |
| MergeLaws.ReinforcesIncoming | src/analysis/tomography.rs:376-390 | and at least the incoming field's weight along the incoming direction, turned to agree |
| Examples.PooledFromBehind | src/analysis/tomography.rs:376-384 | a direction seen from behind is turned around before it is pooled |
| MergeLaws.Exchanged | src/analysis/tomography.rs:366-384 | exchanging prior and incoming field changes that vector by nothing but the sign |
| MergeLaws.UnitWeight | src/analysis/tomography.rs:366-375 | a field with a single observation, or with none and a support of at most one, weighs one |
| MergeLaws.WeightsAdd | src/analysis/tomography.rs:366-375 | pooling adds weights when both fields count their evidence, or neither does and no counter saturates; a replacement weighs what replaced it |
| MergeLaws.ClaimsAgree | src/analysis/tomography.rs:322-422 | in every successful call, with a cosine of the right sign and a normaliser that only changes lengths, no claimed skill is turned against itself |
| MergeLaws.QualitiesMove | src/analysis/tomography.rs:409-414 | pooled persistence and coherence move three tenths of the way to the incoming ones and need no clamp, uncertainty is the smaller; a replacement takes the incoming ones |
| MergeLaws.LatestAttached | src/analysis/tomography.rs:354-414 | the latest analysis is attached, an empty functional signature is not, and a durable skill keeps the generation it was created in |
| MergeLaws.EvidenceAscends | src/analysis/tomography.rs:360-406 | written evidence is ascending whenever the incoming field brings any, and the prior's otherwise |
| MergeLaws.FreshKeeps | src/analysis/tomography.rs:412-421 | an unaligned field is taken as it is, its evidence ordered and counted |
| SkillBank.ContributionDistinct | src/analysis/tomography.rs:254-420 | every field written to the bank lists each evidence digest once |
| SkillBank.ContributionEvidence | src/analysis/tomography.rs:331-421 | a contribution carries exactly the evidence of the incoming field and of the prior it claims |
| SkillBank.ContributionIdentity | src/analysis/tomography.rs:269-293 | a claimed prior with a lineage keeps its skill and lineage ids |
| Ancestry.MergedParents | src/analysis/tomography.rs:269-293 | the parents after a merge are the prior's and whichever of the two ids was given up, once each, ascending |
| Ancestry.MergedKnows | src/analysis/tomography.rs:269-293 | a merged field stands for exactly the ids its prior stood for and the incoming id |
| SkillBank.UnclaimedSlot | src/analysis/tomography.rs:329-422 | a prior nobody claims is still in its slot unchanged |
| SkillBank.PlacedEvidence | src/analysis/tomography.rs:329-422 | with injective claims the working copy holds exactly the old evidence and that of the fields processed so far |
| SkillBank.MergedSupport | src/analysis/tomography.rs:370-406 | exact support stays exact after a merge if and only if the incoming field has evidence, the prior has none, nothing is added, or the counter is saturated |
| SkillBank.ContributionSupport | src/analysis/tomography.rs:330-421 | a contribution has exact support if and only if it is not an evidence-free merge into an exact prior |
| SkillBank.SupportStaysExact | src/analysis/tomography.rs:330-421 | in one call under the alignment it computes, the whole bank's support stays exact if and only if no aligned pair is such a merge |
| SkillBank.ExactIffNothingInflates | src/analysis/tomography.rs:322-433 | decided before the call: for one incoming field, every call with any kernels and threshold keeps an exact bank exact if and only if no prior could be inflated by it |
| SkillBank.InflatedExample | src/analysis/tomography.rs:398-406 | a concrete bank, batch and kernels: one observation, reported again without evidence, is counted twice |
| SkillBank.EvidenceStaysDistinct | src/analysis/tomography.rs:322-433 | a bank without repeated digests stays so, hence exact support is the number of distinct observations |
| SkillBank.MergeBatch | src/analysis/tomography.rs:329-422 | the working copy holds every contribution in the slot its claim names; a failure is the failure of one of them |
| SkillBank.Store.Assimilate | src/analysis/tomography.rs:322-433 | an error leaves the bank unchanged and comes from an impossible alignment or a refused field; success is one assimilation step |
| SkillBank.EvidenceConserved | src/analysis/tomography.rs:322-433 | one successful call: evidence after is exactly evidence before plus incoming |
| SkillBank.IdentitiesKept | src/analysis/tomography.rs:269-293 | fields are never lost, and each durable (skill, lineage) pair occurs at least as often as before |
| SkillBank.GenerationRises | src/analysis/tomography.rs:424-430 | the generation rises by at least one up to saturation and dominates every field's creation generation |
| MergeLaws.RevisionWritten | src/analysis/tomography.rs:423-431 | fields end in the order of their ids; the generation is the next one or, if some field is newer, the newest field's |
| Sorting.SortKeepsTies | src/analysis/tomography.rs:423 | fields the order cannot tell apart stay in the order they came in |
| SkillBank.RunConserves | src/analysis/tomography.rs:322-433 | over every run of successful calls: evidence is exactly conserved, durable identities and fields are kept, the generation rises with each call |
| Ancestry.RunKeepsIds | src/analysis/tomography.rs:322-433 | over every run no id is forgotten: neither what the bank stood for, nor what any batch brought |
| SkillBank.RunKeepsSupport | src/analysis/tomography.rs:322-433 | over every run whose incoming fields all carry evidence, exact support stays exact, with no bound on the counter |
| SkillBank.RunKeepsDistinct | src/analysis/tomography.rs:322-433 | over every run, no field ever lists an observation twice |
| SkillBank.RunCountsObservations | src/analysis/tomography.rs:322-433 | hence after every such run the support of a field with evidence is its number of distinct observations |
| Forest.Compress | src/analysis/persistent.rs:57-62 | pointing a node at its root changes no class and no height bound |
| Forest.Link | src/analysis/persistent.rs:64-77 | hanging one root under another joins exactly their two classes, whatever the ranks say |
| Clustering.UnionFind.constructor | src/analysis/persistent.rs:50-55 | a new forest has every vertex in its own class |
| Clustering.UnionFind.Find | src/analysis/persistent.rs:57-62 | terminates, returns the class root, and path compression changes no class |
| Clustering.UnionFind.Union | src/analysis/persistent.rs:64-77 | the two classes become one and no other changes, with a rank that saturates at 255 |
| Clustering.JoinPairs | src/analysis/persistent.rs:97-104 | classes are exactly the connected components of the graph of scores at or above the threshold |
| Clustering.GroupByRoot | src/analysis/persistent.rs:105-109 | each class is listed once under its root, in ascending order |
| Clustering.SortedComponents | src/analysis/persistent.rs:110-115 | sorting the groups by first member gives every component exactly once, in order of least vertex |
| Clustering.ComponentsAtThreshold | src/analysis/persistent.rs:96-117 | the result is exactly the component list of the threshold graph: ascending lists ordered by first element, covering every vertex once |
| Clustering.ComponentListSize | src/analysis/persistent.rs:96-117 | its length is the number of connected components |
| Clustering.HigherThresholdRefines | src/analysis/persistent.rs:96-117 | each cluster at a higher threshold lies inside one cluster at a lower threshold |
| Topology.FillDistances | src/analysis/pythagoras_topology.rs:178-198 | a symmetric nonnegative matrix with zero diagonal whose entries are the Euclidean distances |
| EuclideanDistance.DistanceAdds | src/analysis/pythagoras_topology.rs:182-192 | every coordinate of a squared distance counts, once |
| EuclideanDistance.DistanceIsLength | src/analysis/pythagoras_topology.rs:182-192 | the squared distance is the squared length of the difference |
| Topology.DistancesAreMetric | src/analysis/pythagoras_topology.rs:178-198 | the distances form a metric: triangle inequality, and zero only between equal points |
| Topology.Find | src/analysis/pythagoras_topology.rs:202-210 | terminates with the class root; compression keeps all classes |
| Topology.JoinEnds | src/analysis/pythagoras_topology.rs:221-226 | two ends are joined exactly if they were not connected, and the forest then tracks the graph with the new edge |
| Topology.ThresholdPass | src/analysis/pythagoras_topology.rs:212-232 | the forest tracks the graph of distances within the threshold, edges are counted once, and there is one lifetime for each joining edge |
| Topology.CountRoots | src/analysis/pythagoras_topology.rs:234-238 | the number of distinct roots is the number of connected components |
| Topology.BettiOneExact | src/analysis/pythagoras_topology.rs:240-244 | for every filtration and threshold, the reported cycle count is the number of edges within the threshold that joined already connected points, if and only if edges are at least points or no edge did; that number is the number of H1 bars born by the threshold |
| Topology.BettiOneFromBars | src/analysis/pythagoras_topology.rs:240-244 | the reported cycle count from the barcode: the H1 bars born by the threshold when they are at least the components, else 0 |
| Topology.BettiOneMissesCycle | src/analysis/pythagoras_topology.rs:146-244 | on the points 0, 1, 2, 100 with threshold 2 every report has two components, one H1 bar born by the threshold, and betti 1 equal to 0 |
| Topology.ThresholdReport | src/analysis/pythagoras_topology.rs:200-252 | betti 0 is the component count, positive; its reciprocal is the homotopy score; lifetimes number points minus components; the mean lifetime is the mean slack under the threshold of a spanning forest of the threshold graph, 0 without edges |
| EventList.SortedIsFiltration | src/analysis/pythagoras_topology.rs:283-288 | sorting the pushed events gives each edge once, every triangle at its longest side, and edges before triangles at equal distance |
| EventList.SortedEvents | src/analysis/pythagoras_topology.rs:255-288 | the event loops build such a filtration of the complete distance graph |
| EventOrder.JoinsAndComponents | src/analysis/pythagoras_topology.rs:295-305 | after any number of events, joins so far plus components equals points |
| EventOrder.JoinTotal | src/analysis/pythagoras_topology.rs:290-303 | over all events there are exactly n-1 joins |
| EventOrder.CycleTotal | src/analysis/pythagoras_topology.rs:303-305 | over all events exactly (n-1)(n-2)/2 edges close a cycle |
| Persistence.EdgesSplit | src/analysis/pythagoras_topology.rs:295-305 | after any number of events, the edges so far are the joins and the cycle-closing edges |
| EventOrder.SuffixBalance | src/analysis/pythagoras_topology.rs:254-312 | in every suffix of the events the triangles are at least as many as the cycle-closing edges |
| TriangleCount.TouchBound | src/analysis/pythagoras_topology.rs:265-281 | three times the triples touching a set of edges is at least (m-2) times the edges: double counting |
| TriangleCount.FourPoints | src/analysis/pythagoras_topology.rs:265-281 | on four points, e late edges force at least min(e, 3) late triangles, where the general count is too weak |
| TriangleCount.TrianglesSuffice | src/analysis/pythagoras_topology.rs:265-281 | the triangles touching a set of edges are at least as many as any admissible number of cycles among them |
| SpanningTree.TreeSpans | src/analysis/pythagoras_topology.rs:290-303 | the joining edges connect all points and number n-1 |
| SpanningTree.SuffixNeeds | src/analysis/pythagoras_topology.rs:290-303 | every spanning edge set has, in every suffix of the order, at least as many edges as the joins: the exchange argument |
| SpanningTree.TreeIsMinimal | src/analysis/pythagoras_topology.rs:290-314 | the joining edges weigh no more than any spanning edge set |
| Persistence.BarcodeIsMinimumSpanningTree | src/analysis/pythagoras_topology.rs:290-314 | n-1 bars born at zero with nondecreasing deaths, whose total is the weight of a minimum spanning tree |
| Persistence.BarcodeCountsComponents | src/analysis/pythagoras_topology.rs:200-303 | for every threshold, components plus bars dead by then equals points: the two union-finds agree |
| Persistence.BarcodeCountsCycles | src/analysis/pythagoras_topology.rs:200-312 | for every threshold, the H1 bars born by then number the edges that closed a cycle by then, which is edges plus components minus points |
| Persistence.CyclesConserved | src/analysis/pythagoras_topology.rs:295-312 | at every moment the open cycles and the starts of the closed bars together are exactly the births so far |
| Persistence.BarsOrdered | src/analysis/pythagoras_topology.rs:304-311 | no bar ends before it begins |
| Persistence.EveryCycleCloses | src/analysis/pythagoras_topology.rs:254-312 | for two or more points the stack ends empty, (n-1)(n-2)/2 bars are closed and they are all the births |
| CyclePairing.BarcodePairsYoungest | src/analysis/pythagoras_topology.rs:295-312 | the bars are the one list in which every triangle that finds an open cycle closes the cycle born last among those not yet closed, and no other event closes any: stated on births and events, without the stack |
| CyclePairing.PairingUnique | src/analysis/pythagoras_topology.rs:304-311 | that rule leaves no choice: the events determine the bars |
| CyclePairing.BarsNeverCross | src/analysis/pythagoras_topology.rs:295-312 | bars die in order, and of two bars the later one was born no later than the earlier one, around it, or not before it had died |
| CyclePairing.TotalOfBars | src/analysis/pythagoras_topology.rs:314-316 | the H1 bars together are as long as the distances of the closing triangles less those of the cycle-closing edges |
| Topology.PersistencePass | src/analysis/pythagoras_topology.rs:290-312 | the loop over the union-find produces the barcode of the joining edges and the stack pairing |
| Topology.LongestBar | src/analysis/pythagoras_topology.rs:317-327 | the largest bar length of both barcodes, at least zero |
| Topology.AnalyzeTopology | src/analysis/pythagoras_topology.rs:146-343 | succeeds exactly on nonempty points of one dimension and returns the report described by all of the above, one point included |
| Topology.ReportLaws | src/analysis/pythagoras_topology.rs:146-343 | reading a report: bar counts, component bars born at zero and dying in order, cycle bars ordered, never crossing and closed the youngest first, their total, betti 0 plus deaths within the threshold equals points, betti 1 from the cycle bars born by the threshold, total 0 is the weight of a minimum spanning tree of the true distances |
| Cholesky.RowProduct | src/analysis/temporal_tracking.rs:291-305 | the inner accumulation is the dot product of two leading rows of the factor |
| Cholesky.FillColumn | src/analysis/temporal_tracking.rs:301-307 | completing a column makes its rows reproduce the matrix entries, other columns untouched |
| Cholesky.Factor | src/analysis/temporal_tracking.rs:289-308 | either the whole matrix is factored, or the leading part is and the next pivot is not positive |
| Cholesky.FactorMeansDefinite | src/analysis/temporal_tracking.rs:289-308 | a completed factorisation proves the matrix positive definite |
| Cholesky.FailureMeansIndefinite | src/analysis/temporal_tracking.rs:295-298 | a nonpositive pivot proves it is not, by a vector of that quadratic value |
| Cholesky.ForwardSolve | src/analysis/temporal_tracking.rs:310-318 | every row of the triangular system holds |
| Cholesky.BackSolve | src/analysis/temporal_tracking.rs:320-328 | every row of the transposed system holds |
| Cholesky.SubstitutionSolves | src/analysis/temporal_tracking.rs:310-328 | the two substitutions together solve the original system exactly |
| Cholesky.Solve | src/analysis/temporal_tracking.rs:287-337 | for a symmetric matrix: succeeds if and only if it is positive definite, and the answer solves the system |
| LeastSquares.SolutionMinimises | src/analysis/temporal_tracking.rs:184-240 | a solution of the normal equations minimises the weighted squares, strictly when the matrix is positive definite |
| MeasurementGraph.DefiniteIffAnchored | src/analysis/temporal_tracking.rs:181-240 | the assembled matrix is positive definite if and only if the regularisation is positive or every node is connected to node 0 |
| MeasurementGraph.EntriesAssemble | src/analysis/temporal_tracking.rs:184-219 | entries accumulated measurement by measurement are the normal equations of the measurement graph |
| MeasurementGraph.SolutionIsMinimal | src/analysis/temporal_tracking.rs:181-245 | the solution, with node 0 at zero, minimises squared pair misfit plus mu times squared displacement, uniquely when definite |
| Inversion.Accumulate | src/analysis/temporal_tracking.rs:188-214 | one pair adds exactly its four matrix entries and two right-hand sides |
| Inversion.Assemble | src/analysis/temporal_tracking.rs:184-219 | the loops build the normal equations with the regularisation on the diagonal |
| ConditionEstimate.EstimateCondition | src/analysis/temporal_tracking.rs:221-237 | the ratio of the largest to the least diagonal entry, or the largest number when the least is at most 1e-15 |
| ConditionEstimate.ConditionMeans | src/analysis/temporal_tracking.rs:221-237 | when every diagonal entry is above 1e-15 the estimate times the least entry is the greatest |
| ConditionEstimate.EntryIsDegree | src/analysis/temporal_tracking.rs:188-214 | a diagonal entry counts the pairs that touch its epoch |
| ConditionEstimate.EstimateExact | src/analysis/temporal_tracking.rs:215-237 | the estimate is the largest number if and only if an epoch is in no pair and the regularisation is at most 1e-15; when every epoch is connected to epoch 0 it lies between one and the number of pairs |
| LinearTrend.SolutionIsTrend | src/analysis/temporal_tracking.rs:247-268 | a line that solves the two normal equations is strictly closer to the series than every other line |
| LinearTrend.FitTrend | src/analysis/temporal_tracking.rs:247-275 | slope and intercept by determinants are the one least-squares line; the floor on the determinant never acts; the residual is the root mean square around the line |
| LinearTrend.NothingLeft | src/analysis/temporal_tracking.rs:269-275 | the detrended residual is zero if and only if the series is a straight line |
| Inversion.SbasInversion | src/analysis/temporal_tracking.rs:155-284 | succeeds if and only if the input is accepted and regularised or connected to epoch 0; the drift starts at zero and is the unique minimiser; velocity and residual are those of its least-squares line; the condition is that of the diagonal |
| Inversion.InversionIsMinimal | src/analysis/temporal_tracking.rs:239-245 | any solution of the definite system is the inversion |
| DriftLaws.RecoversDrift | src/analysis/temporal_tracking.rs:143-151 | without regularisation, pairs that measure the changes of one series are inverted to exactly that series |
| DriftLaws.BestAgrees | src/analysis/temporal_tracking.rs:143-151 | the steps of a minimiser have positive weighted agreement with the steps measured, unless it does not move |
| Examples.SteadyDrift | src/analysis/temporal_tracking.rs:155-284 | two steps of two give the drift 0, 2, 4 with velocity 2 and residual 0 |
| Trajectory.CheckpointOrder | src/analysis/sbas.rs:49-54 | the node list is strictly ascending and names exactly the checkpoints that occur |
| Trajectory.BuildAdjacency | src/analysis/sbas.rs:64-70 | neighbours are exactly the ends of the observations, in both directions |
| Trajectory.Expand | src/analysis/sbas.rs:74-81 | a step keeps every visited node reachable and every open one on the stack, and makes progress |
| Trajectory.Search | src/analysis/sbas.rs:71-81 | terminates having visited exactly the nodes connected to node 0 |
| Trajectory.AnchoredIsConnected | src/analysis/sbas.rs:71-84 | all nodes connected to node 0 is the same as a connected graph |
| Trajectory.IsAnchored | src/analysis/sbas.rs:63-84 | the check passes if and only if the undirected checkpoint graph is connected |
| Trajectory.AddObservation | src/analysis/sbas.rs:88-117 | one observation adds its weighted Laplacian pattern and right-hand sides, nothing else |
| Trajectory.AssembleLaplacian | src/analysis/sbas.rs:85-120 | the grounded weighted Laplacian plus ridge, with one right-hand side for each coordinate |
| Trajectory.SolveCoordinate | src/analysis/sbas.rs:122-128 | a solved coordinate is the unique minimiser of its energy; the other coordinates stay |
| Trajectory.SolveCoordinates | src/analysis/sbas.rs:121-128 | all coordinates are minimisers; an error is the solver's |
| EdgeResiduals.ResidualMeans | src/analysis/sbas.rs:132-138 | the residual times the observed length plus 1e-12 is the length of the miss |
| EdgeResiduals.RootMeanMeans | src/analysis/sbas.rs:139-149 | the squared cycle RMS times the total weight, at least 1e-12, is the weighted sum of squared residuals |
| EdgeResiduals.RootMeanBelow | src/analysis/sbas.rs:129-149 | the weighted root mean square of the residuals is at most the largest, and zero only with it |
| EdgeResiduals.ExactIffZero | src/analysis/sbas.rs:118-128 | under a positive ridge the best potentials reproduce every measurement if and only if every measurement is zero |
| Trajectory.MeasureResiduals | src/analysis/sbas.rs:129-151 | one relative residual for each observation, their weighted root mean square, and the largest |
| Trajectory.ResidualLaws | src/analysis/sbas.rs:16-151 | of every reconstruction: cycle RMS is at most the largest residual, and either is zero if and only if no observation reports any change |
| DriftLaws.StepsAgree | src/analysis/sbas.rs:85-128 | in every coordinate a reconstruction steps from checkpoint to checkpoint the way its observations say, unless it does not move |
| Trajectory.ReconstructTrajectory | src/analysis/sbas.rs:16-152 | rejected inputs give their error, a disconnected graph the disconnection error, and otherwise the potentials, zero at node 0, uniquely minimise reliability-weighted misfit plus ridge, with their residuals measured |
| PosteriorUpdate.PosteriorPsd | src/analysis/active.rs:119-149 | the rank-one update keeps the covariance symmetric positive semidefinite and its denominator positive |
| PosteriorUpdate.PosteriorQuad | src/analysis/active.rs:119-149 | every direction's variance shrinks and stays nonnegative |
| PosteriorUpdate.PosteriorTrace | src/analysis/active.rs:119-149 | the trace falls by exactly the squared projected vector over the denominator |
| PosteriorUpdate.PrecisionAdds | src/analysis/active.rs:119-149 | along the sensing direction precisions add: variance after times noise plus variance before is their product |
| PosteriorUpdate.UncorrelatedKept | src/analysis/active.rs:119-149 | a direction uncorrelated with the sensing direction keeps its variances and covariances |
| PosteriorUpdate.TwoStepJoint | src/analysis/active.rs:119-149 | two successive updates remove what the joint two-observation formula removes |
| PosteriorUpdate.UpdatesCommute | src/analysis/active.rs:119-149 | two apertures give the same posterior in either order |
| PosteriorUpdate.GainsCommute | src/analysis/active.rs:95-98 | the product of the two factors 1 + snr is the same in either order |
| ActiveStep.Admit | src/analysis/active.rs:89-94 | a candidate is admitted exactly if it is valid and its id is new |
| ActiveStep.Choose | src/analysis/active.rs:74-113 | succeeds exactly on a valid covariance, weights and nonempty valid pool; the winner has the largest objective, ties to the smallest id |
| ActiveStep.UpdatePosterior | src/analysis/active.rs:119-149 | succeeds exactly on valid inputs, returning the exact rank-one update |
| ActiveStep.SettleIdle | src/analysis/active.rs:138-146 | the clamp of the diagonal and the symmetrisation change nothing |
| ActiveStep.ObjectiveShrinks | src/analysis/active.rs:94-99 | sensing any aperture never raises the objective of another |
| ActiveStep.SenseTrace | src/analysis/active.rs:252-263 | a step's trace drop is nonnegative and exact |
| ActivePlan.LaterIsLower | src/analysis/active.rs:241-265 | an objective evaluated after more steps is never larger |
| ActivePlan.LeftoverRemove | src/analysis/active.rs:247-251 | removing the chosen position leaves exactly the candidates not yet chosen |
| ActivePlan.PlanPass | src/analysis/active.rs:241-265 | one pass stops only when exhausted, fails only on bad weights, and otherwise keeps the plan invariant with one candidate fewer |
| ActivePlan.PlanActive | src/analysis/active.rs:212-283 | succeeds exactly on valid inputs, with a greedy plan that ended for one of the stated reasons |
| ActiveLaws.ObjectivesNeverIncrease | src/analysis/active.rs:241-265 | over every plan the step objectives never increase |
| ActiveLaws.IdsDistinct | src/analysis/active.rs:247-251 | chosen ids are distinct |
| ActiveLaws.PlanPartitions | src/analysis/active.rs:241-278 | steps and unselected ids partition the candidates |
| ActiveLaws.StopIsFinal | src/analysis/active.rs:243-246 | after stopping, no leftover candidate has a positive objective under any later posterior |
| ActiveLaws.StepReduction | src/analysis/active.rs:252-264 | each recorded reduction is the exact trace drop of that step, nonnegative |
| ActiveLaws.ReductionsTelescope | src/analysis/active.rs:252-264 | the reductions of any prefix add up to the trace drop of that prefix |
| ActiveLaws.TotalsAdd | src/analysis/active.rs:266-272 | the reported totals are the sums of the steps |
| Assimilation.Assimilate | src/analysis/active.rs:170-207 | succeeds exactly on valid inputs with the Gaussian update of mean and covariance |
| Assimilation.MisfitShrinks | src/analysis/active.rs:186-199 | afterwards the innovation is scaled by noise over denominator |
| Assimilation.MeasurementsCommute | src/analysis/active.rs:166-207 | two measured results give the same mean and covariance in either order |
| OrderIndependence.SwapLast | src/analysis/active.rs:252-265 | the last two apertures of any sequence may be exchanged |
| OrderIndependence.OrderFree | src/analysis/active.rs:252-265 | however a multiset of apertures is ordered, the same covariance and the same product of factors 1 + snr come out |
| OrderIndependence.GainsAreLog | src/analysis/active.rs:95-98 | the gains of any prefix of a plan add up to half the logarithm of its product of factors |
| OrderIndependence.PlansAgree | src/analysis/active.rs:212-283 | two plans that chose the same apertures, in any order and under any weights, report the same covariance, final trace, reduction and total gain |
| ActiveAccount.ObjectivesAccount | src/analysis/active.rs:94-99 | over every plan the objectives add up to the total gain less the weighted total cost and risk of the chosen apertures |
| ActiveAccount.DearerWaits | src/analysis/active.rs:94-113 | of two apertures with the same sensing and noise the one of larger weighted cost and risk is never chosen while the other is unused |
| ActiveAccount.TwinsById | src/analysis/active.rs:104-113 | of two equal in that too the one with the earlier id is chosen first |
| ActiveAccount.FreeChoosesClearest | src/analysis/active.rs:94-113 | without weights every step takes an aperture of the largest signal-to-noise ratio |
| ActiveAccount.StepsWorthTaking | src/analysis/active.rs:243-246 | a plan that may stop takes no step whose gain does not exceed its weighted cost and risk |
| Examples.CheapPlanned | src/analysis/active.rs:212-283 | of two equal apertures at the edges of the accepted cost and risk a one-step plan takes the cheap one |
| TrustRegion.QuadraticCost | src/analysis/trust_region.rs:59-73 | succeeds exactly on a valid metric of matching size; the cost is the quadratic form, nonnegative, so neither clamp acts |
| TrustRegion.ScaleLands | src/analysis/trust_region.rs:84-90 | a scaled proposal costs exactly the budget, with a factor in [0,1) |
| TrustRegion.ApplyUniform | src/analysis/trust_region.rs:75-108 | the accepted cost is within the budget if and only if the proposed cost was, or exceeds 1e-18; nothing else changes |
| TrustRegion.NegligibleOverrunsBudget | src/analysis/trust_region.rs:84 | a positive cost left unscaled under a zero budget |
| CausalContraction.FlippedCost | src/analysis/trust_region.rs:182-207 | the cost tracked on magnitudes in the sign-flipped metric is the cost of the signed vector in the original one |
| CausalContraction.FlippedPsd | src/analysis/trust_region.rs:182-207 | the flipped metric is symmetric positive semidefinite |
| CausalContraction.SignedMagnitudeMetric | src/analysis/trust_region.rs:182-207 | succeeds exactly on matching sizes, and its own validation cannot fail |
| CausalContraction.CausalPriorityCandidate | src/analysis/trust_region.rs:209-239 | none exactly when no coordinate is eligible; otherwise one within the tolerance of the least utility ratio |
| CausalLaws.CheapestPreferred | src/analysis/trust_region.rs:209-239 | for the chosen coordinate b and every eligible i: priority b times slope i is at most priority i times slope b, plus twice the tolerance times both slopes |
| CausalLaws.PreferredMeans | src/analysis/trust_region.rs:222-226 | hence with equal priorities the steepest coordinate goes and with equal slopes the least important one, up to the tolerance |
| CausalLaws.EligibleMeans | src/analysis/trust_region.rs:214-223 | a coordinate is eligible exactly when its magnitude and its slope exceed a 2^-26 part of one and the sums of all magnitudes and slopes |
| CausalContraction.DownhillCost | src/analysis/trust_region.rs:288-300 | lowering a coordinate up to its one-dimensional minimum never raises the cost |
| CausalLaws.DecrementBest | src/analysis/trust_region.rs:291-298 | the decrement reaches the least cost in reach along the coordinate, or zero where the cost is too flat |
| CausalContraction.Bisect | src/analysis/trust_region.rs:308-321 | low stays over the budget, high within budget plus tolerance, and their gap is the starting decrement over 2^96 |
| CausalContraction.ContractOnce | src/analysis/trust_region.rs:277-326 | one pass lowers only the chosen coordinate: to its minimum if the budget is still overrun, else to the boundary; it fails only when stuck |
| CausalContraction.Contract | src/analysis/trust_region.rs:272-328 | a chain of such passes ending on the boundary, or given up because stuck or after 128 passes for each coordinate |
| CausalContraction.ApplyCausalPriority | src/analysis/trust_region.rs:247-364 | proposals within the budget are returned unchanged; others end on the boundary with the reported cost exact, or are refused by a stuck or exhausted run |
| CausalLaws.ReachedLawfully | src/analysis/trust_region.rs:272-328 | every contraction that ends on its boundary went there by passes that each lower the preferred coordinate alone, to its minimum or to zero, and a last one that lowers the preferred coordinate |
| CausalLaws.BudgetMet | src/analysis/trust_region.rs:263-264 | the accepted cost exceeds the budget by at most a 2^-26 part of one, the proposed cost and the budget, and constrained means losing more than that |
| CausalLaws.OverrunsMeans | src/analysis/trust_region.rs:263-272 | a proposal is contracted exactly when it exceeds the budget by more than that |
| Examples.SecondSacrificed | src/analysis/trust_region.rs:209-239 | in the metric diag(1, 4), magnitudes 1 and priorities 1 and 2, the second coordinate is the one sacrificed |
| CausalContraction.ContractedComponent | src/analysis/trust_region.rs:333-349 | no component grows or changes sign and retention times proposal is what was accepted |
| Spectral.PseudoSolves | src/analysis/protected.rs:107-121 | the truncated pseudoinverse solves every right-hand side free of the dropped eigenvectors |
| Spectral.PseudoDrops | src/analysis/protected.rs:109-111 | it sends every dropped eigenvector to zero |
| SafeSubspace.OrthogonalIffSolved | src/analysis/protected.rs:126-135 | the remainder is orthogonal to all directions if and only if the coefficients solve the Gram system |
| SafeSubspace.EigenEnergy | src/analysis/protected.rs:97-106 | every Gram eigenvalue is the energy of a combination of directions, so never negative |
| SafeSubspace.CleanSolves | src/analysis/protected.rs:107-130 | without eigenvalues in (0, tolerance] the coefficients solve the Gram system, even for dependent directions |
| SafeSubspace.DirtySurvives | src/analysis/protected.rs:107-135 | for the projection step alone: an eigenvalue in (0, tolerance] leaves some vector not orthogonal |
| SafeSubspace.ExactIffClean | src/analysis/protected.rs:107-135 | for the projection step alone, before any refusal: every vector is projected exactly if and only if there is no such eigenvalue |
| SafeSubspace.RemainderIsNearest | src/analysis/protected.rs:126-135 | an orthogonal remainder has the least metric energy of all combinations subtracted |
| Protection.BuildGram | src/analysis/protected.rs:88-96 | the loops fill the symmetric Gram matrix of metric products |
| Protection.BuildPseudoinverse | src/analysis/protected.rs:107-120 | the accumulated matrix is the truncated pseudoinverse, and the rank counts the kept eigenvalues |
| ProtectionLaws.KeptMeans | src/analysis/protected.rs:98-113 | an eigenvalue is kept exactly when it exceeds m 2^-26 times the larger of one and the greatest eigenvalue, for m active directions |
| ProtectionLaws.RankMeans | src/analysis/protected.rs:107-113 | the rank is the number of those eigenvalues |
| Protection.Subtract | src/analysis/protected.rs:131-135 | the nested loops subtract the combination of directions |
| Protection.MaxResidual | src/analysis/protected.rs:137-150 | bounds every normalised residual, and is zero for an orthogonal result |
| Protection.ProjectOff | src/analysis/protected.rs:77-157 | accepts exactly the updates the rank and residual gates let through, and returns the braked update minus directions, the number of kept eigenvalues as rank and the worst relative residual; with a clean Gram matrix it always succeeds and is exactly orthogonal |
| Protection.DamageSquared | src/analysis/protected.rs:163-174 | allowed means removed energy is at most the squared ratio times the energy of the update |
| ProtectionLaws.DamageMeans | src/analysis/protected.rs:160-169 | the squared damage times the energy of the update is the removed energy |
| Examples.StepProjected | src/analysis/protected.rs:39-178 | a step over one protected coordinate and one without importance is accepted and loses exactly the protected one |
| Protection.ProjectToSafeSubspace | src/analysis/protected.rs:39-178 | succeeds exactly on valid inputs that pass the gates, with the projected update, rank and residual determined; valid inputs with a clean Gram matrix succeed with every active direction orthogonal and residual zero |
| ProtectionLaws.OrthonormalPasses | src/analysis/protected.rs:39-178 | fewer than 2^26 active directions, orthonormal in the metric, are never refused: every valid input passes, the rank is their number, and nothing of any of them is left |
| ProtectionLaws.SingleDirection | src/analysis/protected.rs:39-178 | one active direction passes exactly when its energy exceeds 2^-26, and then rank is one and nothing of it is left |
| ProtectionLaws.AcceptsMeans | src/analysis/protected.rs:77-157 | accepted exactly when every direction has energy, the rank is positive, and no direction sees more of the result than 16 sqrt(m) 2^-26 of the lengths of the proposal and of itself |
| ProtectionLaws.ActiveMeans | src/analysis/protected.rs:70-74 | exactly the directions of positive importance are protected |
| ProtectionLaws.BrakeMeans | src/analysis/protected.rs:62-68 | the braked coordinate times one plus its importance is the proposed one; it is never longer, and equal exactly where importance or step is zero |
| Protection.UntouchedCoordinate | src/analysis/protected.rs:64-135 | a coordinate with zero importance, outside every direction, is returned unchanged |
| Protection.ExactIsNearest | src/analysis/protected.rs:126-135 | the exact projection has the least metric energy |
| DirtySpectrum.MixedLeaves | src/analysis/protected.rs:107-135 | a dropped eigenvector's combination survives unchanged however much of a kept one is added |
| DirtySpectrum.DirtyAccepted | src/analysis/protected.rs:77-157 | with an eigenvalue in (0, tolerance] and a kept one, some update passes both gates and is not orthogonal |
| DirtySpectrum.AcceptedExactIff | src/analysis/protected.rs:77-157 | every accepted update is projected exactly if and only if a direction is unobservable, the rank is zero, or no eigenvalue lies in (0, tolerance] |
| DirtySpectrum.CortexExactIff | src/analysis/protected.rs:39-178 | the same for the whole call, on every valid cortex |
| MetricDual.DualDirection | src/analysis/protected_map.rs:238-291 | succeeds exactly on a nonempty, nonzero covector supported where the metric is positive; the direction has unit metric energy and represents the covector up to a positive scale |
| MetricDual.OrthogonalIffAnnihilated | src/analysis/protected_map.rs:233-291 | an update is metric-orthogonal to the dual direction if and only if the covector annihilates it |
| MetricDual.MapProtects | src/analysis/protected_map.rs:233-291 | after an exact projection every retained covector annihilates the update and zero-importance coordinates are unchanged |
| RootMeanSquare.StableRms | src/foundation/linalg.rs:162-198 | fails exactly on no values; otherwise its square times the count is the sum of squares |
| Transport.WeightedNormalSolve | src/foundation/linalg.rs:354-390 | the gathered system is the normal equations of the ridged fit, and the answer solves it |
| Transport.DesignUnit | src/analysis/transport.rs:237-241 | the unit squared is the trace of the centred design over its dimension |
| Transport.FitOutput | src/analysis/transport.rs:266-276 | weights and bias of one output are the unique minimiser of squared error plus the ridge penalty |
| TrainingError.EnergyByColumns | src/analysis/transport.rs:288-300 | the squared misses add up to the same anchor by anchor and output by output |
| Transport.TrainedBelowMean | src/analysis/transport.rs:215-311 | on its own anchors a fitted map never has a larger root mean square error than predicting the mean target |
| Transport.FitCentred | src/analysis/transport.rs:215-311 | all outputs are best, the training RMS is that of all misses, and the diagnostics are the trace of the centred design and the ridge of the objective; an acceptable input fails only for a design without spread or when the solver fails |
| AffineObjective.ObjectiveSplits | src/analysis/transport.rs:221-276 | the objective is the centred objective plus a penalty on the bias error that vanishes only at the chosen bias |
| AffineObjective.SolveIsBest | src/analysis/transport.rs:237-276 | solving in unit coordinates and scaling back minimises the documented objective over all weights and biases |
| AffineObjective.BestUnique | src/analysis/transport.rs:215-276 | there is only one minimiser |
| AffineObjective.ShiftEquivariance | src/analysis/transport.rs:221-276 | shifting the sources and targets shifts every prediction by the target shift |
| AffineObjective.ScaleEquivariance | src/analysis/transport.rs:237-243 | rescaling the sources leaves every prediction unchanged, because the ridge follows the trace |
| Binomial.FavourableIsWeight | quality/experiments/capability_statistics.py:32-39 | counting coin sequences by outcome is summing binomial coefficients |
| Binomial.TailComplement | quality/experiments/capability_statistics.py:38 | complementary tails add up to all sequences |
| Binomial.TwoSided | quality/experiments/capability_statistics.py:37-39 | outcomes near either end number at most twice the tail |
| Binomial.TwoEnds | quality/experiments/capability_statistics.py:37-39 | two ends that do not meet number exactly twice the tail |
| PairedStatistics.Symmetric | quality/experiments/capability_statistics.py:32-39 | gained and lost may be exchanged |
| PairedStatistics.Monotone | quality/experiments/capability_statistics.py:32-39 | for a fixed number of discordant pairs the value is nondecreasing in the smaller count |
| PairedStatistics.ClipIffBalanced | quality/experiments/capability_statistics.py:38-39 | the clip at one binds if and only if gained equals lost |
| PairedStatistics.ExactProbability | quality/experiments/capability_statistics.py:32-39 | the value is exactly the fair-coin probability of an outcome at least as lopsided |
| Examples.PValues | quality/experiments/capability_statistics.py:32-39 | the value is 1 for no or one discordant pair and 0.0625 for five gained and none lost |
| PairedStatistics.PRange | quality/experiments/capability_statistics.py:32-39 | the value lies in (0, 1] |
| PairedStatistics.ExactPDefined | quality/experiments/capability_statistics.py:32-39 | the entry point fails exactly on a negative count; otherwise its value lies in (0, 1] and gained and lost may be exchanged |
| PairedStatistics.Valid | quality/experiments/capability_statistics.py:32-39 | for every n and every alpha, fair-coin outcomes with value at most alpha have probability at most alpha |
| PairedStatistics.Tabulate | quality/experiments/capability_statistics.py:14-22 | succeeds exactly when task ids are distinct, mapping each to its outcome |
| PairedStatistics.ValidatedPassRows | quality/experiments/capability_statistics.py:10-29 | succeeds exactly on nonempty distinct rows whose stated rate agrees with them |
| PairedStatistics.Conserved | quality/experiments/capability_statistics.py:47-54 | the four classes add up to the tasks, and the gain in passes is gained minus lost |
| PairedStatistics.PairedPassCounts | quality/experiments/capability_statistics.py:42-57 | succeeds exactly on valid evaluations of the same tasks; the counts are the four classes, by subtraction for the last |
| PairedStatistics.Exchange | quality/experiments/capability_statistics.py:42-57 | exchanging the evaluations exchanges gained and lost and keeps the p-value |
| BuildIdentity.ReadWritten | build.rs:325-328 | a field is read back in front of any rest |
| BuildIdentity.WrittenRead | build.rs:325-328 | anything read as a field was written as that field |
| BuildIdentity.FirstByte | build.rs:325-328 | the framing is big endian: the first length byte is the most significant |
| BuildIdentity.ReadWrittenRecord | build.rs:330-345 | a file record is read back in front of any rest |
| BuildIdentity.DecodeInverts | build.rs:325-345 | decoding a stream of records returns the files |
| BuildIdentity.EncodeInverts | build.rs:325-345 | encoding what was decoded returns the stream |
| BuildIdentity.NeighboursSuffice | build.rs:491-495 | on sorted inputs comparing neighbours finds every duplicate path |
| BuildIdentity.HashRegularFile | build.rs:330-345 | the four framed updates append exactly the file's record |
| BuildIdentity.CompiledInputs | build.rs:490-503 | succeeds exactly on distinct paths, hashing the domain and the sorted records |
| BuildIdentity.OrderIndependent | build.rs:491-502 | the stream does not depend on the enumeration order |
| BuildIdentity.UniquelyDecodable | build.rs:491-502 | equal streams come from equal sets of path, role and content |
| BuildIdentity.DigestIdentifies | build.rs:325-345 | with a collision-free digest, equal digests if and only if equal sets |
| EvidenceJournal.NameInjective | quality/experiments/prospective_capability_evidence.py:24 | different indexes have different names, of any length |
| EvidenceJournal.NameOrder | quality/experiments/prospective_capability_evidence.py:24 | names sort like indexes below one million |
| EvidenceJournal.OrderBreaks | quality/experiments/prospective_capability_evidence.py:24 | record 1000000 sorts before record 100001 |
| EvidenceJournal.Journal.constructor | quality/experiments/prospective_capability_evidence.py:15-19 | a new journal is empty and starts from the genesis digest |
| EvidenceJournal.Journal.Append | quality/experiments/prospective_capability_evidence.py:21-32 | exactly one record is chained to the tip and stored under a new name, and the new tip is its digest |
| EvidenceJournal.ReadJournal | quality/experiments/prospective_capability_evidence.py:35-46 | returns the records and tip of the acceptable chain, and fails exactly when there is none |
| EvidenceJournal.AcceptedIffInRange | quality/experiments/prospective_capability_evidence.py:35-46 | a stored chain is accepted, as itself, if and only if it has between one and a million records |
| EvidenceJournal.ReadsBack | quality/experiments/prospective_capability_evidence.py:14-46 | every journal built by appending in that range reads back as its records and tip |
| EvidenceJournal.TipIdentifies | quality/experiments/prospective_capability_evidence.py:35-46 | with a collision-free digest, chains with the same tip are equal in length and content |

## Left out

- SkillBank.Store.Assimilate: geometry, materialisation, layout and representation are carried along as one opaque value; digests are numbers.
- EvidenceJournal.Journal.Append: payloads are opaque text, and the directory is a map from names to contents.
- BuildIdentity.CompiledInputs: paths, roles and contents are byte sequences shorter than 2^64; the digest is applied to the whole stream.
- Floating point: rounding, overflow, NaN, negative zero and the rejections of non-finite values; all numbers are exact reals.
- The tolerances inside the covariance validator and inside the eigen-decomposition; their contracts are stated for exact results.
- The bodies of cosine, square root, logarithm, linear solve and eigen-decomposition, which are parameters with contracts.
- The linear solver's floor: src/foundation/linalg.rs:313 skips eliminating entries below 1e-18, so over the reals an answer need not solve the system exactly; `RidgeFit.SolvesExactly` asks for an exact one.
- Flat row-major vectors: matrices are two-dimensional arrays where the source updates them and sequences of rows where it reads them.
- Files, directories, symbolic links, permissions, schema strings and serialisation.
- `align_incoming_identities` and `reconcile_full_corpus`, which reuse the alignment and identity rules modelled here, and the reconstruction of fields from observations.
- Silhouette scores, recurrence and the choice of a clustering threshold: its comparison within an epsilon is not transitive, so it optimises nothing that could be stated.
- Sinkhorn transport, the fixed-ridge fit, leave-one-out validation and relational transport.
- The geodesic trust region, the staircase correction and the SAR processing, which are formulas over the parts modelled here.
- Phase correlation and persistent scatterers: heuristics whose ranges are enforced by clamps.
- `build_protected_cortex_map` apart from its dual directions, and the persistence of protected maps.
- `paired_gain_interval`, and the scoring and monitoring functions after the journal.
- Manifest scanning, directory collection and the architecture table of the build script.
- Command-line programs, the web console and the experiments that run models.
