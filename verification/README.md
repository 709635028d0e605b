# Verified models of the benchmark algorithms

This project models three of the programs in the repository and proves what they compute:

- the **LIBSVM training engine**: the sequential minimal optimisation solver with shrinking, its kernel cache, the
  grouping of the classes, the compact multi-class model with its predictions, and the coupling of class probabilities;
- the **GAP graph kernels and their graph builder**: in-place and plain construction of compressed sparse row graphs,
  delta-stepping shortest paths, direction-optimising breadth-first search, two connected-components kernels,
  betweenness centrality, triangle counting and PageRank;
- the **YCSB acknowledged counter**, a sliding-window protocol between inserting and reading clients.

`dafny verify dfyconfig.toml` checks everything. The modules are in `src`.

## How the programs are modelled

Floating-point numbers are exact reals, machine integers are unbounded, and a kernel is any symmetric matrix; positive
semidefiniteness is assumed only where a theorem says so. Buffers are arrays or sequences. Objects whose methods change
their fields (`Solver`, `Cache`, `SvcQ`, `SvrQ`, `SlidingQueue`, `AcknowledgedCounter`) are classes.

Parallel loops come in two forms. Where threads race on shared memory, the program is a machine whose actions are the
single reads, writes, compare-and-swaps and fetch-and-adds, and the theorems are about every run of it (`Handover`,
`Compress`, `Afforest`, `ShiloachVishkin`, `AckCounter`). Where the loop body's effect is one claim or one insertion, the
method takes the order of these effects as an arbitrary parameter (`DirectionBfs`, `Brandes`, `CsrBuild`);
`SerialOrders` shows that such orders exist.

Delta-stepping is modelled twice. In `DeltaStepping` the threads' relaxations are single memory accesses, but the
hand-over from one bin to the next is one action. In `Handover` that hand-over is taken apart as well: every thread
proposes, waits at both barriers, reserves its place, copies vertex by vertex and uses the two slots that change roles,
while one of them resets the old slots. `HandoverRefines` proves that every run of this machine is a run of the simple
one, and `HandoverProgress` that it neither blocks nor runs for ever. The shared loop hands indices out one at a time to
any thread, which covers every chunk size, and a thread may stop fusing at any moment, which covers every threshold.

The solver's arrays are permuted by every shrink. Its invariant is therefore stated in the original order of the
variables, with a ghost position for each, so that a swap changes nothing in what is said.

### Where the code and its description differ

- `libsvm-320/README:463-489` says that in the coefficient rows of class j the first j-1 vectors have y = 1 and the
  rest y = -1. The code gives +1 to the first class of a pair and -1 to the second (`svm.cpp:2229-2238`), so it is the
  other way round. The model follows the code.
- The depth index that the betweenness search builds has one more segment than there are levels: it begins with an
  empty one, and segment j + 1 is level j (`bc.cc:59-91`).
- `TransactionInsert` acknowledges its key even if the insert failed (`core_workload.cc:356-357`). A key that a reader
  may choose has therefore been tried, and is in the store exactly if its insert did not fail.
- A key acknowledged from beyond the window is not always reported: it throws only if its slot is taken, and otherwise
  leaves a wrong state (`AckCounter.AcknowledgeExact` gives the exact condition). With a store that starts empty the
  unsigned limit lets every key through until key 0 is acknowledged (`AckCounter.EmptyStoreDraws`), so that a client may
  choose a key that was never issued (`AckCounter.ChoosesUnissued`).
- The betweenness kernel divides by its largest score, which is zero exactly if no source has an edge to another vertex
  (`Betweenness.PositiveExactly`). Picked sources have an out-edge, but a given one may have none
  (`Betweenness.NothingToScaleBy`).
- The solver's threshold is infinite or undefined exactly if the start leaves nothing to move up or nothing to move down
  (`SmoSolver.Solve`). In nu-classification the check on nu lets such a start through: with nu = 1 and two classes of
  equal size every variable is at its upper bound (`NuClassification.FullShare`).
- Nu-classification divides its result by a margin that may be zero. At an exact solution it is positive exactly if the
  classes' reduced hulls do not meet (`NuMargin.ExactMargin`); with tolerance eps it is positive if they keep apart by
  more than eps (`NuMargin.MarginPositive`) and zero if they meet (`NuMargin.MarginZero`). One point in both classes is
  enough for a division by zero (`NuClassification.SolveOnePointTwice`).
- A key acknowledged from beyond the window that finds its slot free makes the limit pass a key that was never
  acknowledged, shows such a key as acknowledged, or makes the limit lag (`AckCounter.BeyondWindowShows`).

### Assumptions

Edge weights are at least 0, delta at least 1, and true distances are below the infinite distance. A graph has at least
one vertex and its in-lists are the transpose of its out-lists, which `KernelInput.BuiltIsGraph` proves of the builder's
result. A row is requested from the cache with a length of at least 1. A training set is not empty. In a run of the
counter's clients every key is acknowledged while it lies inside the window.

## Model

| member | source | states |
|---|---|---|
| DualProblem.ObjectiveUpdate | libsvm-320/svm.cpp:627-712 | moving one variable changes the dual objective by its gradient and half its diagonal entry, for any symmetric matrix |
| DualProblem.Expansion | libsvm-320/svm.cpp:381-398 | the objective expands exactly around any point into gradient and quadratic parts |
| DualProblem.NearOptimal | libsvm-320/svm.cpp:902-903 | with a semidefinite matrix and separated signed gradients, no feasible point is better by more than eps/2 times its distance |
| PairStep.MoveTogether | libsvm-320/svm.cpp:627-669 | for different labels the clipped pair stays in its boxes, keeps its difference, moves in the direction of the full step, and is cut back only at a bound |
| PairStep.MoveAgainst | libsvm-320/svm.cpp:670-712 | for equal labels the clipped pair stays in its boxes, keeps its sum, and is cut back only at a bound |
| PairStep.PairObjective | libsvm-320/svm.cpp:627-712 | moving two variables changes the objective by their two gradients and the 2 by 2 block of the matrix |
| PairStep.Descends | libsvm-320/svm.cpp:627-712 | every cut-back step strictly lowers the objective, whatever the sign of the curvature |
| PairStep.LineMinimum | libsvm-320/svm.cpp:627-712 | with positive curvature the step reaches the least value on its line inside the box |
| PairStep.CutStepIsGood | libsvm-320/svm.cpp:616-712 | the two-variable step stays feasible, strictly descends, and is a line minimum when the curvature is positive; otherwise it goes to a bound or 10^12 times the slope |
| PairStep.LineKeepsBalance | libsvm-320/svm.cpp:627-712 | a step keeps the signed sum of the variables, and with equal labels both class sums |
| WorkingSet.StopsExactlyWhenOptimal | libsvm-320/svm.cpp:902-903 | the stopping test on the two maxima (four with nu) holds exactly when no active pair violates optimality by eps |
| WorkingSet.SearchEnds | libsvm-320/svm.cpp:811-908 | if the test fails, the second-order search has found a pair that violates, maximal on one side and best on the other |
| WorkingSet.SomeCandidate | libsvm-320/svm.cpp:833-903 | a failed test always leaves a partner for the chosen variable, so an index is never missing |
| WorkingSet.EstimateIsGain | libsvm-320/svm.cpp:857-897 | on a convex line half the estimate is the least change of the objective over the whole line, reached at the full step; on any other the curvature counts as 10^-12 |
| WorkingSet.SeparatorExists | libsvm-320/svm.cpp:902-903 | when the test holds, one value separates the signed gradients of the two groups to within eps/2 |
| WorkingSet.OptimalIsCertified | libsvm-320/svm.cpp:902-903 | passing the test with everything active yields the multipliers of the near-optimality theorem, in the original order |
| WorkingSet.OptimalIsTolerance | libsvm-320/svm.cpp:902-903 | the test in the solver's order says that no two variables of the problem violate by eps |
| WorkingSet.ShrunkExactly | libsvm-320/svm.cpp:910-928 | a variable is shrunk exactly if it is at a bound and strictly on the safe side of every active one it could violate with |
| WorkingSet.CloseExactly | libsvm-320/svm.cpp:967-973 | everything is made active again exactly when no active pair violates by more than ten times eps |
| SmoState.CoreSwap | libsvm-320/svm.cpp:456-466 | exchanging two positions in all arrays keeps boxes, permutation, status, gradient and bar for the same point |
| SmoState.CoreStep | libsvm-320/svm.cpp:714-753 | the gradient, status and bar updates of a step are those of the moved point |
| SmoState.PartialEnd | libsvm-320/svm.cpp:468-508 | bar plus linear term plus the free variables' columns is the whole gradient, because inactive variables are at a bound |
| SmoState.ShrunkIsBound | libsvm-320/svm.cpp:910-928 | a variable that may be shrunk is at a bound, so shrinking leaves no free variable outside |
| SmoState.PlacedAll | libsvm-320/svm.cpp:772-780 | the sum over all positions of alpha times gradient plus linear term is twice the objective |
| SmoSolver.Solver.constructor | libsvm-320/svm.cpp:515-562 | the initial gradient and bar, computed column by column, belong to the starting point |
| SmoSolver.Solver.Fetch | libsvm-320/svm.cpp:1304-1315 | a row that the solver works with comes from the cached matrix and is the row of its permuted problem |
| SmoSolver.Solver.SwapIndex | libsvm-320/svm.cpp:456-466 | all seven arrays and the cached matrix are exchanged at two positions, and the invariant and their agreement are kept |
| SmoSolver.Solver.ReconstructGradient | libsvm-320/svm.cpp:468-508 | both ways of restoring the inactive gradient give the gradient everywhere |
| SmoSolver.Solver.AddFreeByRows | libsvm-320/svm.cpp:486-496 | one inactive row at a time, every free variable is added |
| SmoSolver.Solver.AddFreeByColumns | libsvm-320/svm.cpp:497-507 | one free column at a time, every inactive entry receives it |
| SmoSolver.Solver.CloseGap | libsvm-320/svm.cpp:977-987 | a shrinkable position is exchanged with the last active one that stays, or the active part ends before it |
| SmoSolver.Solver.Partition | libsvm-320/svm.cpp:975-988 | afterwards the active positions are exactly those that must stay, the rest are shrunk, and the invariant holds |
| SmoSolver.Solver.MaxUp | libsvm-320/svm.cpp:825-842 | the first pass finds the maximal upward violation and where it is |
| SmoSolver.Solver.BestPartner | libsvm-320/svm.cpp:849-900 | the second pass finds the best partner by the second-order gain and the maximal downward violation |
| SmoSolver.Solver.SelectWorkingSet | libsvm-320/svm.cpp:811-908 | reports optimality exactly when it holds, and otherwise two distinct positions that violate it |
| SmoSolver.Solver.ShrinkingThresholds | libsvm-320/svm.cpp:932-963 | the thresholds are the current maxima over the active positions, per label with nu |
| SmoSolver.Solver.DoShrinking | libsvm-320/svm.cpp:930-989 | removes exactly the positions beyond the thresholds, after restoring everything the first time that no active pair violates by more than ten times eps |
| SmoSolver.Solver.NewValues | libsvm-320/svm.cpp:616-712 | the new pair is a strictly descending feasible move on the balance line |
| SmoSolver.Solver.UpdateGradient | libsvm-320/svm.cpp:714-723 | every active gradient entry receives both variables' changes |
| SmoSolver.Solver.UpdateStatusAndBar | libsvm-320/svm.cpp:725-753 | the statuses are set and the bar changes by what enters or leaves the upper bound |
| SmoSolver.Solver.TakeStep | libsvm-320/svm.cpp:616-753 | a whole step keeps the invariant and moves exactly two variables by a good move |
| SmoSolver.Solver.Optimise | libsvm-320/svm.cpp:583-766 | through any mix of steps, shrinks and restorations the invariant, the balance and the descent hold; it ends fully active |
| SmoSolver.Solver.ObjectiveValue | libsvm-320/svm.cpp:772-780 | the reported value is the exact objective of the result |
| SmoSolver.Solver.PutBack | libsvm-320/svm.cpp:782-786 | writing through the active set restores the original order |
| SmoSolver.Solver.CalculateRho | libsvm-320/svm.cpp:991-1027 | the value is the threshold (and with nu the margin) of the final point in the original order: the mean of the signed gradient over the free variables or the middle between the two sides; it exists exactly if something can move up and something down, and separates the two sides of a solution that passed the test within eps |
| SmoSolver.Solve | libsvm-320/svm.cpp:510-808 | with every row taken from a cache of any size, every variable of the result lies between 0 and its own label's bound, the start's balance (and class sums with nu) is kept, the objective is strictly lower than the start's once a step was taken, and the run gives up only after 10000000 steps, 100 for each variable or the greatest int; if it converged no two variables violate the optimality conditions by eps and it is near-optimal against every feasible rival; the threshold is the mean of the signed gradient over the free variables or the middle between the two sides, it is a multiplier of the result, and it exists exactly if the start's sums lie strictly between their extremes |
| Bias.MiddleExists | libsvm-320/svm.cpp:1020-1025 | the mean of the free values or the middle of the bounds exists exactly if both sides have a member |
| Bias.MiddleSeparates | libsvm-320/svm.cpp:1020-1025 | with the stopping test passed it separates the two sides within eps |
| Bias.MiddleIs | libsvm-320/svm.cpp:1020-1025 | it is the mean of the values that may go both ways, or else half-way between the least that may go up and the greatest that may go down |
| Bias.TallyReordered | libsvm-320/svm.cpp:997-1018 | the order in which the variables are counted does not matter |
| Bias.CombineIsBias | libsvm-320/svm.cpp:1238-1286 | what the solver combines from its permuted arrays is the threshold and margin of the point in the original order |
| Bias.BiasSplits | libsvm-320/svm.cpp:1273-1285 | threshold plus and minus margin are the thresholds of the two label groups |
| Bias.BiasCertifies | libsvm-320/svm.cpp:1238-1286 | the thresholds of both label groups are multipliers of the solution in the original order |
| Bias.MovableExactly | libsvm-320/svm.cpp:991-1027 | whether both sides have a member depends only on sums that every step keeps |
| Bias.BalancedIsMovable | libsvm-320/svm.cpp:1464-1498 | in classification with two classes the threshold always exists |
| KernelCache.UnlinkKeeps | libsvm-320/svm.cpp:116-121 | unlinking one row leaves the others threaded in the same order, both ways round the ring |
| KernelCache.AppendKeeps | libsvm-320/svm.cpp:123-130 | inserting before the head threads the row last |
| KernelCache.Cache.constructor | libsvm-320/svm.cpp:100-107 | the ring is empty, nothing is cached, and there is room for at least two rows |
| KernelCache.Cache.LruDelete | libsvm-320/svm.cpp:116-121 | the ring loses exactly that row |
| KernelCache.Cache.LruInsert | libsvm-320/svm.cpp:123-130 | the ring gains that row at its newest end |
| KernelCache.Cache.ReleaseOldest | libsvm-320/svm.cpp:143-149 | the oldest row is freed and its length returns to the free size |
| KernelCache.Cache.MakeRoom | libsvm-320/svm.cpp:141-150 | evicts oldest rows, no more than needed, never reaches the head, and always ends with enough room |
| KernelCache.Cache.TwoRowsFit | libsvm-320/svm.cpp:104-105 | while room is lacking at least two rows are in the ring, so the eviction loop cannot run dry |
| KernelCache.Cache.GetData | libsvm-320/svm.cpp:132-160 | returns how much of the row is valid, keeps that prefix, makes the row newest, and keeps free size plus cached lengths constant |
| KernelCache.Cache.ExchangeRows | libsvm-320/svm.cpp:166-171 | two rows change places with their data and lengths |
| KernelCache.Cache.ExchangeColumns | libsvm-320/svm.cpp:173-190 | in every cached row the two columns are exchanged, or the row is given up if it holds only the first |
| KernelCache.Cache.SwapIndex | libsvm-320/svm.cpp:162-191 | rows and columns are exchanged together for every cached row |
| KernelCache.NewestSurvives | libsvm-320/svm.cpp:132-160 | whatever a request evicts, the row requested just before keeps its entries |
| KernelRows.ExchangeIsPermutation | libsvm-320/svm.cpp:162-191 | exchanging columns in a cached row gives the row of the matrix with the two points exchanged |
| KernelRows.SvcQ.GetQ | libsvm-320/svm.cpp:1304-1315 | the delivered row agrees with the permuted signed kernel on the whole requested length |
| KernelRows.SvcQ.Fill | libsvm-320/svm.cpp:1308-1313 | only the missing entries are computed and the row then agrees with the matrix |
| KernelRows.SvcQ.GetPair | libsvm-320/svm.cpp:618-619 | of two consecutive requests the first row is still valid after the second |
| KernelRows.SvcQ.SwapIndex | libsvm-320/svm.cpp:1322-1328 | after exchanging points, labels and diagonal every cached row still agrees with the matrix |
| SolverRows.CachedRowIsSolverRow | libsvm-320/svm.cpp:1304-1315 | a row from the cache is the permuted row of the dual's matrix that the solver reads |
| SolverRows.ExchangeInStep | libsvm-320/svm.cpp:456-466 | the solver's and the cache's exchanges keep the two permutations equal |
| SolverRows.Serve | libsvm-320/svm.cpp:1288-1345 | over every sequence of row requests and exchanges, with any cache size, the solver is given the rows of its matrix in its present order |
| RegressionRows.SwapKeeps | libsvm-320/svm.cpp:1412-1417 | signs, points and diagonal stay those of the permuted doubled problem |
| RegressionRows.SvrQ.KernelRow | libsvm-320/svm.cpp:1421-1427 | the cache delivers the whole kernel row of a point |
| RegressionRows.SvrQ.GetQ | libsvm-320/svm.cpp:1419-1436 | the buffer whose turn it is receives the row of the doubled matrix in the present order, and the turn passes |
| RegressionRows.SvrQ.GetPair | libsvm-320/svm.cpp:1419-1436 | of two rows requested one after the other the first is not overwritten |
| RegressionForm.DoubledForm | libsvm-320/svm.cpp:1398-1406 | the doubled form at a and a* is the kernel's form at a - a* |
| NuClassification.CheckNu | libsvm-320/svm.cpp:3126-3177 | accepts exactly if for every pair of classes nu times their size is at most twice the smaller one's |
| NuClassification.GreedyStart | libsvm-320/svm.cpp:1516-1530 | the start is in the boxes and in each class twice its sum is nu times the number of points, or the class is full |
| NuClassification.AcceptedPairFits | libsvm-320/svm.cpp:3162-3164 | the check accepts a pair exactly when the start reaches half the share in both classes |
| NuClassification.SolveNu | libsvm-320/svm.cpp:1500-1540 | through the whole run twice either class's sum is nu times the number of points, or the class is full; if the check accepts it is the former for both, the thresholds then exist exactly if that half is positive and fills neither class, and the margin is positive if the classes keep apart and zero if they meet |
| NuClassification.FullShare | libsvm-320/svm.cpp:3126-3177 | with nu = 1 and two classes of equal size, which the check accepts, no feasible point has a threshold |
| NuMargin.MarginBound | libsvm-320/svm.cpp:1536-1549 | half the share times the margin is at least the objective up to eps |
| NuMargin.MarginPositive | libsvm-320/svm.cpp:1536-1549 | if every point with the same share has an objective above the share times eps, the margin of a converged solution is positive |
| NuMargin.ZeroObjective | libsvm-320/svm.cpp:1536-1549 | with a semidefinite matrix a zero objective means a zero gradient |
| NuMargin.MarginZero | libsvm-320/svm.cpp:1536-1549 | and so a zero threshold and a zero margin |
| NuMargin.ExactMargin | libsvm-320/svm.cpp:1536-1549 | at an exact solution the margin is positive exactly if no point with the same share has a zero objective |
| NuMargin.DivideByMargin | libsvm-320/svm.cpp:1539-1549 | with a margin other than zero the signed coefficients, threshold, objective and bound are those divided by it, and with a positive one the coefficients lie within the bound |
| NuClassification.SolveAndDivide | libsvm-320/svm.cpp:1500-1549 | solving and dividing one pair: there is a result if the run converged and the classes keep apart, and none if half the share fills a class or the classes meet |
| NuClassification.SolveOnePointTwice | libsvm-320/svm.cpp:1500-1549 | one point in both classes is accepted for every nu below one, and its result is divided by zero |
| NuClassification.SamePairs | libsvm-320/svm.cpp:3126-3177 | the check accepts the classes in its order exactly as in the training's order |
| NuClassification.TrainNu | libsvm-320/svm.cpp:2204-2254 | if the check accepts, then for every pair of the grouped classes twice the result's sum over either class is nu times the number of the pair's points, and the result is divided by its margin |
| ClassGroups.FindLabels | libsvm-320/svm.cpp:2050-2077 | the distinct labels in order of first occurrence, their counts, and every point's class |
| ClassGroups.TurnRound | libsvm-320/svm.cpp:2084-2095 | labels -1, +1 alone are turned round with their counts and points |
| ClassGroups.Place | libsvm-320/svm.cpp:2097-2105 | the counting sort gives every class its points in order as one stretch |
| ClassGroups.GroupClasses | libsvm-320/svm.cpp:2040-2113 | the permutation is the concatenation of the classes, stable inside each |
| ClassGroups.GroupedIsPermutation | libsvm-320/svm.cpp:2097-2105 | no point is lost or doubled |
| CompactModel.PairOrder | libsvm-320/svm.cpp:2220-2222 | the running pair number increases exactly in the order of the nested loops and stays below k(k-1)/2 |
| CompactModel.TrainPair | libsvm-320/svm.cpp:2222-2253 | a pair is trained on its two classes with signs +1 and -1, and the points it uses are marked |
| CompactModel.TrainPairs | libsvm-320/svm.cpp:2219-2254 | every pair has its own decision function, and a point is marked exactly if some pair uses it |
| CompactModel.CountSupport | libsvm-320/svm.cpp:2284-2298 | the number of marked points of each class |
| CompactModel.CollectSupport | libsvm-320/svm.cpp:2308-2317 | the marked points in order, with one-based original indices |
| CompactModel.KeptStretch | libsvm-320/svm.cpp:2319-2322 | in the list of support vectors every class is one stretch, starting after those of the classes before it |
| CompactModel.BlockStays | libsvm-320/svm.cpp:2328-2350 | writing one class's stretch of one row disturbs no other stretch |
| CompactModel.PairStays | libsvm-320/svm.cpp:2328-2350 | no two pairs share a stretch of a row, so none overwrites another |
| CompactModel.FillTable | libsvm-320/svm.cpp:2324-2350 | row j-1 holds the pair's coefficients for class i and row i those for class j, for every pair |
| CompactModel.StoredIsFull | libsvm-320/svm.cpp:2574-2577 | the sum over stored support vectors is the sum over all points, as the others have coefficient zero |
| CompactModel.PairValue | libsvm-320/svm.cpp:2562-2580 | the value computed from the stored rows is the pair's own decision function |
| CompactModel.VoteStep | libsvm-320/svm.cpp:2582-2585 | a decision value gives one vote to exactly one of its two classes |
| CompactModel.PredictValues | libsvm-320/svm.cpp:2552-2596 | every decision value is the plain one, and the label is of the first class with the most votes |
| CompactModel.Train | libsvm-320/svm.cpp:2204-2350 | the model stores the trained classifiers of the grouped points |
| CompactModel.TrainAndPredict | libsvm-320/svm.cpp:2533-2596 | after training, decision value p of a test point is the p-th pair's sum of alpha times kernel over all of its training points, less its bias, and the predicted label is the first one with the most votes |
| Coupling.SumOfSquares | libsvm-320/svm.cpp:1864-1879 | twice the form is the sum of squared disagreements over all pairs of classes, so the form is never negative |
| Coupling.BuildMatrix | libsvm-320/svm.cpp:1864-1879 | the matrix with its diagonal of squares and its copied lower half |
| Coupling.UpdatesExact | libsvm-320/svm.cpp:1901-1908 | the incrementally updated products are exactly those of the rescaled distribution |
| Coupling.StepDenominator | libsvm-320/svm.cpp:1901-1908 | the divisor 1 + diff is always positive, as is the updated probability |
| Coupling.StepKeeps | libsvm-320/svm.cpp:1899-1909 | a coordinate step keeps a positive distribution and strictly lowers the form unless nothing moves |
| Coupling.StepBalances | libsvm-320/svm.cpp:1901-1908 | but for the scaling, the step at t brings (Qp)[t] to what p'Qp was |
| Coupling.Products | libsvm-320/svm.cpp:1883-1890 | the recomputed products are those of the current distribution |
| Coupling.MaxError | libsvm-320/svm.cpp:1891-1897 | the largest deviation, attained unless zero |
| Coupling.Coordinate | libsvm-320/svm.cpp:1899-1909 | the in-place update makes the step and keeps both products exact |
| Coupling.Sweep | libsvm-320/svm.cpp:1899-1909 | a round makes the steps at all coordinates in turn |
| Coupling.NearMinimum | libsvm-320/svm.cpp:1891-1898 | deviations within eps mean that no distribution has a form smaller by more than twice eps |
| Coupling.MulticlassProbability | libsvm-320/svm.cpp:1855-1912 | the result is what so many full rounds of coordinate steps make of the uniform distribution, no round before met the tolerance 0.005/k, and it gives up only after max(100, k) rounds; it is a positive distribution no worse than the uniform one, and within 0.01/k of the best if it converged |
| ProbabilityPrediction.Clip | libsvm-320/svm.cpp:2634-2643 | below 0.0000001 it is that, above 0.9999999 it is that, and in between the value itself |
| ProbabilityPrediction.PairwiseProbabilities | libsvm-320/svm.cpp:2635-2646 | every pair has its clipped sigmoid and the rest to one, all strictly between 0 and 1 |
| ProbabilityPrediction.PredictProbability | libsvm-320/svm.cpp:2624-2659 | the estimates couple the clipped sigmoids of the point's own decision values: what max(100, k) rounds or the first that meet the tolerance make of the uniform distribution, no worse than that and near-minimal over all distributions on convergence; the label is of the first most likely class |
| ProbabilityPrediction.TrainAndEstimate | libsvm-320/svm.cpp:2624-2659 | from the training set to the point: the coupled values are those of each pair's own two-class training |
| PrefixSums.PrefixSum | gapbs-1.5/src/builder.h:94-103 | every entry is the sum of the degrees before it |
| PrefixSums.ParallelPrefixSum | gapbs-1.5/src/builder.h:106-137 | the blocked sum gives the same result for every block size |
| EdgeLists.Squished | gapbs-1.5/src/builder.h:199-205 | ascending, without duplicates or loops, and otherwise the same edges |
| InPlaceBuild.CountDegrees | gapbs-1.5/src/builder.h:80-91 | the out-degrees of the squished edges |
| InPlaceBuild.Compact | gapbs-1.5/src/builder.h:210-212 | writing neighbours over the edge list never destroys an edge not yet read |
| InPlaceBuild.ShiftDown | gapbs-1.5/src/builder.h:216-217 | shifting the advanced offsets down restores the row starts |
| Symmetrise.BinarySearch | gapbs-1.5/src/builder.h:240-242 | a binary search is right on any slice that its key splits, sorted or not |
| Symmetrise.CountMissing | gapbs-1.5/src/builder.h:237-246 | how many inverses each vertex lacks |
| Symmetrise.WidenOffsets | gapbs-1.5/src/builder.h:248-253 | every row is moved by the inverses missing before it |
| Symmetrise.MoveRow | gapbs-1.5/src/builder.h:264-268 | a row moves to the end of its wider place, each entry read before it is overwritten |
| Symmetrise.Spread | gapbs-1.5/src/builder.h:260-272 | all rows are spread with the free cells at their front and nothing lost |
| Symmetrise.HeldSplits | gapbs-1.5/src/builder.h:273-281 | the searched slice is unsorted, but everything inserted so far is below the key |
| Symmetrise.SearchHeld | gapbs-1.5/src/builder.h:277-281 | the search answers whether the vertex had the neighbour from the start |
| Symmetrise.GiveInverse | gapbs-1.5/src/builder.h:282-285 | a missing inverse fills the next free cell, and there is one |
| Symmetrise.FillInverses | gapbs-1.5/src/builder.h:273-286 | every free cell is filled exactly once |
| InPlaceBuild.HeldIsClosure | gapbs-1.5/src/builder.h:235-286 | what a row then holds is its neighbours in either direction, each once |
| InPlaceBuild.MakeSymmetric | gapbs-1.5/src/builder.h:197-291 | for every edge list each row is the ascending, loop-free list of neighbours in either direction |
| CsrBuild.CountDegrees | gapbs-1.5/src/builder.h:80-91 | how many entries each row will receive, for either side and for symmetric graphs |
| CsrBuild.SameRows | gapbs-1.5/src/builder.h:306-314 | any two orders of the insertions give rows with the same entries |
| CsrBuild.InsertOne | gapbs-1.5/src/builder.h:309-313 | an insertion lands in its own row's next place and in nobody else's |
| CsrBuild.MakeCSR | gapbs-1.5/src/builder.h:300-315 | every row holds exactly its entries, for every interleaving |
| CsrBuild.UniqueIsLightest | gapbs-1.5/src/builder.h:155-156 | after sorting by vertex and weight, keeping the first of each vertex keeps its least weight |
| CsrBuild.SquishIs | gapbs-1.5/src/builder.h:155-157 | a squished row is the other vertices of the row, each with its least weight |
| CsrBuild.SquishCSR | gapbs-1.5/src/builder.h:141-170 | every row is squished and copied without gaps |
| BuiltGraph.BuildSide | gapbs-1.5/src/builder.h:317-365 | each row is the ascending list of joined vertices with the least weight of the parallel edges |
| BuiltGraph.SidesTranspose | gapbs-1.5/src/builder.h:172-186 | an outgoing entry has its incoming counterpart with the same weight |
| BuiltGraph.EntriesEven | gapbs-1.5/src/graph.h:138-143 | a symmetric graph has an even number of entries |
| BuiltGraph.MakeGraph | gapbs-1.5/src/builder.h:317-365 | the whole graph, transposed sides, and an edge count that doubles back exactly |
| KernelInput.BuiltIsGraph | gapbs-1.5/src/builder.h:317-365 | the built sides are a graph with its transpose, as the kernels ask |
| KernelInput.BuiltIsSimple | gapbs-1.5/src/builder.h:317-365 | a symmetric graph's lists are sorted, loop-free and mutual, as the triangle count asks |
| KernelInput.BuildersAgree | gapbs-1.5/src/builder.h:197-291 | building in place and building beside the edge list give the same lists |
| DeltaStepping.InitHolds | gapbs-1.5/src/sssp.cc:87-101 | the initial state has every unrelaxed edge covered |
| DeltaStepping.StepKeeps | gapbs-1.5/src/sssp.cc:68-153 | every action of every thread keeps that each unrelaxed edge is covered by a waiting entry or a busy thread, and no entry lies below the current bin; the hand-over is one action |
| DeltaStepping.SwapCovered | gapbs-1.5/src/sssp.cc:71-82 | a successful compare-and-swap leaves every edge covered |
| DeltaStepping.RunInv | gapbs-1.5/src/sssp.cc:87-153 | the invariant holds in every state of every run of that machine |
| DeltaStepping.NoShorterWalk | gapbs-1.5/src/sssp.cc:87-153 | with nothing left to relax no walk is shorter than the recorded distance |
| DeltaStepping.FinishedIsShortest | gapbs-1.5/src/sssp.cc:87-153 | a finished run holds exactly the shortest distances, for every delta, fusion choice and interleaving |
| DeltaStepping.NeverStuck | gapbs-1.5/src/sssp.cc:102-153 | a machine that is not finished can take a step |
| DeltaStepping.StepDecreases | gapbs-1.5/src/sssp.cc:102-153 | every step decreases a well-founded measure, so every run ends |
| Handover.UndoneTake | gapbs-1.5/src/sssp.cc:107-112 | beginning a handed-out index removes exactly its vertex from what is left of the frontier |
| Handover.LeastFromIs | gapbs-1.5/src/sssp.cc:121-127 | a thread's proposal is its least bin from the current one on |
| HandoverRefines.ProposeKeeps | gapbs-1.5/src/sssp.cc:121-127 | the next index is always the least bin of the threads that have proposed |
| HandoverRefines.FirstOpens | gapbs-1.5/src/sssp.cc:128 | when the first thread passes the first barrier every frontier vertex has been relaxed, and the simple machine advances to the proposed bin or is done |
| HandoverRefines.CopiesReserve | gapbs-1.5/src/sssp.cc:139-140 | a reservation extends the next frontier's plan by the thread's part |
| HandoverRefines.CopiesWrite | gapbs-1.5/src/sssp.cc:141-142 | each copied vertex lands where it is planned, whatever the other threads write |
| HandoverRefines.SecondOpens | gapbs-1.5/src/sssp.cc:129-146 | when the first thread passes the second barrier the frontier is complete, and the reused slots are back at their start values |
| HandoverRefines.StepSimulates | gapbs-1.5/src/sssp.cc:102-147 | every action of every thread is a step of the simple machine or leaves its state as it is |
| HandoverRefines.RunSimulates | gapbs-1.5/src/sssp.cc:98-152 | to every run there is a run of the simple machine that ends in the corresponding state |
| HandoverRefines.SlotsReused | gapbs-1.5/src/sssp.cc:93-106 | until somebody proposes, the slots for the next iteration are as at the start of the program |
| HandoverRefines.HandoverIsShortest | gapbs-1.5/src/sssp.cc:87-153 | a finished run holds exactly the shortest distances, for every interleaving inside the iterations and in the hand-over between them |
| HandoverProgress.NeverBlocked | gapbs-1.5/src/sssp.cc:102-147 | until every thread has left the loop some thread can act, so no barrier is waited at in vain |
| HandoverProgress.StepCloser | gapbs-1.5/src/sssp.cc:102-147 | every action of every thread decreases a well-founded measure, so every run ends |
| DirectionBfs.TopDown | gapbs-1.5/src/bfs.cc:67-89 | for every order of claims the next level gets its tree parents and is appended to the queue; the returned count is the sum of the new vertices' out-degrees, at least one each |
| DirectionBfs.BottomUp | gapbs-1.5/src/bfs.cc:46-64 | exactly the next level is found, marked and counted |
| DirectionBfs.Awaken | gapbs-1.5/src/bfs.cc:52-61 | a vertex finds a parent exactly if it is on the next level, although stale marks may be set |
| DirectionBfs.QueueToBitmap | gapbs-1.5/src/bfs.cc:92-98 | the bitmap marks the level, and any older mark is on a vertex whose neighbours are done |
| DirectionBfs.BitmapToQueue | gapbs-1.5/src/bfs.cc:100-112 | the queue's window is the marked level |
| DirectionBfs.AppendLevel | gapbs-1.5/src/bfs.cc:100-112 | all appends ever made are different vertices, so the queue never overflows |
| DirectionBfs.BottomUpPhase | gapbs-1.5/src/bfs.cc:143-164 | a whole bottom-up phase ends on a later level and makes progress |
| DirectionBfs.Search | gapbs-1.5/src/bfs.cc:142-171 | for any switching between the directions the search ends with a complete tree |
| DirectionBfs.ClimbsHome | gapbs-1.5/src/bfs.cc:122-179 | as many steps from child to parent as a vertex is deep lead from it to the source |
| DirectionBfs.DOBFS | gapbs-1.5/src/bfs.cc:122-179 | a vertex has a parent exactly if it can be reached, and the parent is one level nearer the source |
| SerialOrders.SerialSearch | gapbs-1.5/src/bfs.cc:66-87 | one thread's order of the edges is a schedule of the top-down step |
| Components.HookRoot | gapbs-1.5/src/cc.cc:41-56 | hooking a root moves its whole tree and no other |
| Components.Redirect | gapbs-1.5/src/cc.cc:59-66 | pointing a vertex further up its own tree changes no root |
| Components.MinLabelsUnique | gapbs-1.5/src/cc.cc:95-151 | there is only one labelling by least vertices |
| Components.StarsAreMinLabels | gapbs-1.5/src/cc.cc:95-151 | a forest of stars with one label per edge labels every component with its least vertex |
| Compress.CompressedRoots | gapbs-1.5/src/cc.cc:59-66 | compression ends in stars with unchanged roots, for every interleaving |
| Compress.ActCloser | gapbs-1.5/src/cc.cc:60-66 | every vertex's worker ends after finitely many of its own steps |
| Compress.Completes | gapbs-1.5/src/cc.cc:59-66 | from every forest there is a completed compression |
| Afforest.MoveKeeps | gapbs-1.5/src/cc.cc:41-56 | every read, test and swap of a link keeps the forest connected and downward, and only merges trees |
| Afforest.StepKeeps | gapbs-1.5/src/cc.cc:41-56 | every action of a linking phase keeps the invariant |
| Afforest.FinishOk | gapbs-1.5/src/cc.cc:41-56 | a link that returns has brought its ends into one tree |
| Afforest.LinkTerminates | gapbs-1.5/src/cc.cc:41-56 | a link returns after finitely many of its own steps, whatever the others do |
| Afforest.AlwaysInRange | gapbs-1.5/src/cc.cc:41-56 | a link only ever follows indices that exist |
| Afforest.NeverStuck | gapbs-1.5/src/cc.cc:104-146 | a phase that is not over can go on |
| Afforest.PhaseCompletes | gapbs-1.5/src/cc.cc:104-146 | with any number of threads there is a way through a phase |
| Afforest.PhaseResult | gapbs-1.5/src/cc.cc:104-140 | after a phase every planned pair is in one tree |
| Afforest.DoneStays | gapbs-1.5/src/cc.cc:126-133 | a vertex that is passed over is done with, and no action undoes that |
| Afforest.SamplesMerge | gapbs-1.5/src/cc.cc:103-112 | the sampling rounds' merges survive to the last phase |
| Afforest.EdgeSettled | gapbs-1.5/src/cc.cc:118-146 | after the last phase the ends of every edge are in one tree, unless its source was skipped and is in the skipped tree |
| Afforest.AfforestCorrect | gapbs-1.5/src/cc.cc:95-151 | every vertex gets the least vertex of its component, for any skipped label, number of rounds and interleaving |
| Afforest.AfforestCompletes | gapbs-1.5/src/cc.cc:95-151 | on every graph, for any number of rounds and skipped label, there is a completed run |
| ShiloachVishkin.MoveKeeps | gapbs-1.5/src/cc_sv.cc:56-73 | every step of a hooking pass keeps the forest, although racing hooks may overwrite each other |
| ShiloachVishkin.NeverStuck | gapbs-1.5/src/cc_sv.cc:56-73 | a pass that is not over can go on, and never follows an index that does not exist |
| ShiloachVishkin.PassResult | gapbs-1.5/src/cc_sv.cc:56-73 | a pass that changes something has fewer roots, and one that changes nothing has one label per edge |
| ShiloachVishkin.RoundResult | gapbs-1.5/src/cc_sv.cc:53-80 | a changing round strictly reduces the number of roots, which never reappear |
| ShiloachVishkin.SvCorrect | gapbs-1.5/src/cc_sv.cc:49-83 | the final labelling gives every vertex the least vertex of its component, after at most one round more than there are vertices |
| ShiloachVishkin.SvCompletes | gapbs-1.5/src/cc_sv.cc:49-83 | on every graph there is a completed run |
| ShiloachVishkin.SameAsAfforest | gapbs-1.5/src/cc_sv.cc:49-83 | it is the labelling that Afforest returns |
| ShortestPaths.WalksCount | gapbs-1.5/src/bc.cc:51-92 | the walk numbers count the ways of following that many edges |
| ShortestPaths.LastEdge | gapbs-1.5/src/bc.cc:68-78 | walks are counted alike by their first and by their last edge |
| ShortestPaths.LevelArrivals | gapbs-1.5/src/bc.cc:68-78 | all shortest paths to a level arrive from the level before it |
| Dependencies.ThroughCount | gapbs-1.5/src/bc.cc:121-136 | as many walks run through a vertex as there are ways to it times ways on from it |
| Dependencies.ShareIsFraction | gapbs-1.5/src/bc.cc:121-136 | a vertex's share in a target is the fraction of the shortest paths that run through it |
| Dependencies.DependencyRecursion | gapbs-1.5/src/bc.cc:121-136 | the sum of these fractions over all targets obeys the recursion over successors |
| Dependencies.LevelConservation | gapbs-1.5/src/bc.cc:121-136 | the dependencies of a level add up to one plus the dependency of every vertex of the next |
| Dependencies.SourceDependency | gapbs-1.5/src/bc.cc:121-136 | the source's dependency is the number of other vertices it reaches |
| Brandes.GatheredAll | gapbs-1.5/src/bc.cc:74-78 | when all edges of a level are counted the numbers are those of the shortest paths |
| Brandes.CountLevel | gapbs-1.5/src/bc.cc:66-80 | for every interleaving of claims and counts each edge of the level is counted once and marked exactly if it goes one level down |
| Brandes.SearchLevel | gapbs-1.5/src/bc.cc:64-88 | a round extends depths, path counts, marks, queue and depth index by one level |
| Brandes.PBFS | gapbs-1.5/src/bc.cc:51-92 | path counts are the numbers of shortest paths, the marks are the shortest-path edges, and the segments after the first are the levels |
| Brandes.VertexDelta | gapbs-1.5/src/bc.cc:126-131 | the accumulated delta of a vertex is its dependency |
| Brandes.Propagate | gapbs-1.5/src/bc.cc:119-136 | every score grows by the vertex's dependency on this source |
| Brandes.Centrality | gapbs-1.5/src/bc.cc:95-140 | before scaling, the scores are the sums of the vertices' dependencies over all sources |
| Betweenness.Scale | gapbs-1.5/src/bc.cc:141-148 | exactly if some score is positive, every score is divided by the largest, which becomes one |
| Betweenness.LeadingSource | gapbs-1.5/src/bc.cc:119-136 | a source with an edge to another vertex depends on it |
| Betweenness.LonelySource | gapbs-1.5/src/bc.cc:119-136 | a source without one adds nothing to any score |
| Betweenness.PositiveExactly | gapbs-1.5/src/bc.cc:141-145 | the largest score is positive exactly if some source has an edge to another vertex |
| Betweenness.PickedSourcesLead | gapbs-1.5/src/benchmark.h:53-61 | sources that are picked rather than given meet that condition on a built graph |
| Betweenness.NothingToScaleBy | gapbs-1.5/src/bc.cc:146-148 | with a given start vertex without out-edges every score is zero, and the kernel divides zero by zero |
| Betweenness.BetweennessKernel | gapbs-1.5/src/bc.cc:95-150 | if some source has an edge to another vertex, the returned scores are the dependency sums over all sources scaled so that the largest is one; otherwise every sum is zero |
| SerialOrders.SerialCounting | gapbs-1.5/src/bc.cc:66-80 | one thread that claims and counts edge by edge is a schedule of the search |
| TriangleCount.SixTimes | gapbs-1.5/src/tc.cc:113-124 | every clique appears in six orders |
| TriangleCount.Advance | gapbs-1.5/src/tc.cc:63-64 | the inner walk without a bound stops at or before its sentinel |
| TriangleCount.CountCommon | gapbs-1.5/src/tc.cc:59-68 | counts the common neighbours up to the second vertex |
| TriangleCount.OrderedCount | gapbs-1.5/src/tc.cc:52-71 | the number of three-cliques |
| TriangleCount.SetIntersection | gapbs-1.5/src/tc.cc:115-120 | the common elements of two ascending lists |
| TriangleCount.CheckTotal | gapbs-1.5/src/tc.cc:108-123 | the checker's sum is the number of triangles in all six orders |
| TriangleCount.TCVerifier | gapbs-1.5/src/tc.cc:107-128 | the checker accepts exactly the number of three-cliques |
| Relabel.NumberNodes | gapbs-1.5/src/builder.h:376-389 | the new labels are a numbering by falling degree |
| Relabel.RelabelByDegree | gapbs-1.5/src/builder.h:368-402 | the new graph is sorted and simple, has the same edges under the new names, and its degrees never rise |
| Relabel.SameTriangles | gapbs-1.5/src/builder.h:368-402 | renaming the vertices keeps the number of cliques |
| Relabel.Hybrid | gapbs-1.5/src/tc.cc:96-101 | both branches return the number of cliques of the given graph |
| PageRank.NextIsRanking | gapbs-1.5/src/pr_spmv.cc:42-52 | scores stay positive with total at most one, and the total one is kept exactly if every vertex has an out-edge |
| PageRank.Contracts | gapbs-1.5/src/pr_spmv.cc:42-52 | an iteration brings any two score vectors closer by the factor 0.85 |
| PageRank.ErrorShrinks | gapbs-1.5/src/pr_spmv.cc:41-58 | each iteration's error is at most 0.85 times the one before |
| PageRank.NextIs | gapbs-1.5/src/pr_spmv.cc:46-54 | an iteration gives every vertex 0.15/n and 0.85 times the sum over its in-edges of score by out-degree |
| PageRank.FixedPointNear | gapbs-1.5/src/pr_spmv.cc:56-58 | where an iteration changes little every fixed point is near |
| PageRank.PullInto | gapbs-1.5/src/pr_spmv.cc:48-50 | pulls only from vertices with an out-edge and collects what they pass |
| PageRank.PullAll | gapbs-1.5/src/pr_spmv.cc:46-54 | the new scores and the total change |
| PageRank.PushIsPull | gapbs-1.5/src/pr_spmv.cc:83-87 | pushing along out-edges delivers what pulling along in-edges collects |
| PageRank.PageRankPull | gapbs-1.5/src/pr_spmv.cc:35-61 | the result is the iterate at which the change first falls below the tolerance, or the last one allowed; every vertex of an iterate has 0.15/n and 0.85 times the sum over its in-edges of score by out-degree; after an early stop one more iteration would change less than 0.85 times the tolerance |
| PageRank.PRVerifier | gapbs-1.5/src/pr_spmv.cc:78-94 | the checker's error is the change that one more such iteration would make |
| PageRank.RankAndCheck | gapbs-1.5/src/pr_spmv.cc:35-94 | what the kernel returns after stopping early the checker accepts |
| AckCounter.AcknowledgeExact | bench_lmdb/core/acknowledged_counter_generator.cc:12-30 | a key is taken in correctly and without an exception exactly if it lies inside the window |
| AckCounter.BeyondWindowShows | bench_lmdb/core/acknowledged_counter_generator.cc:12-30 | a key from beyond the window that finds its slot free makes the limit pass a key never acknowledged, shows such a key as acknowledged, or makes the limit lag behind it |
| AckCounter.AcknowledgedCounter.Acknowledge | bench_lmdb/core/acknowledged_counter_generator.cc:12-30 | the limit becomes the greatest key up to which all are acknowledged, or the exception leaves everything as it was |
| AckCounter.StepKeeps | bench_lmdb/core/core_workload.cc:351-359 | every action of every client keeps the protocol's invariant and never lowers the limit |
| AckCounter.LimitAmongIssued | bench_lmdb/core/acknowledged_counter_generator.h:21-23 | the limit is the greatest key up to which every issued one is acknowledged, the next is in some client's hands, and with no key in hand it is the last one issued |
| AckCounter.HistoryExact | bench_lmdb/core/core_workload.cc:351-359 | at every moment the issued keys are those from the start to the counter, and the inserted, failed and acknowledged ones are exactly those that a client inserted, failed to insert or acknowledged before |
| AckCounter.IssuedOnce | bench_lmdb/core/counter_generator.h:21 | no key is ever issued twice |
| AckCounter.DrawnKey | bench_lmdb/core/core_workload.cc:247-253 | a drawn number passes exactly if all issued keys up to it are acknowledged |
| AckCounter.CounterCorrect | bench_lmdb/core/core_workload.cc:247-253 | over every interleaving and from any start the limit is monotone and the greatest key up to which every issued one is acknowledged; every issued key is acknowledged or in one client's hands, and when no client has any the limit is the last key issued; a draw that passes has all issued keys up to it acknowledged exactly if the limit was not negative, and then its insert has returned and it is in the store unless that failed |
| AckCounter.ChosenWasDrawn | bench_lmdb/core/core_workload.cc:247-253 | a key that a client holds as chosen comes from a draw that passed |
| AckCounter.ChoosesUnissued | bench_lmdb/core/core_workload.cc:247-253 | a run from an empty store in which a key is chosen that was never issued, after which the client is ready again |
| AckCounter.ChoosesFailed | bench_lmdb/core/core_workload.cc:351-359 | a run in which a key is chosen whose insert failed |
| AckCounter.EmptyStoreDraws | bench_lmdb/core/acknowledged_counter_generator.h:21-23 | before key 0 is acknowledged an empty store's limit reads 2^64 - 1 and excludes nothing |

## Left out

- Rounding, overflow and the values of `exp`, `tanh` and `log`: arithmetic is exact, and the sigmoid and the kernel functions are arbitrary.
- The regression and one-class formulations, cross-validation and the sigmoid fit: the solver is modelled with and without nu and the regression matrix by its rows, the model and its predictions for classification only.
- File formats, command lines, timing, the signalling inside `Solve` and the forked benchmark harnesses.
- The database adapters, the random generators and the other RocksDB and PebblesDB files.
- The branch of the in-place builder that does not symmetrise; the plain builder covers directed graphs.
- The packing of bitmaps into words: a bitmap is an array of truth values.
- SmoSolver.Solver.Optimise: that the loop reaches optimality before the iteration limit is not claimed, nor how often it shrinks.
- SmoSolver.Solve: the reported upper bounds are the caller's own values and are not returned; of an infinite or undefined threshold only that it is one is stated; the kernel matrix is recovered from the problem's signed one.
- KernelCache.Cache.constructor: the byte budget is a number of entries, already divided by the entry size.
- NuMargin.DivideByMargin: for a margin of zero the infinite or not-a-number results are not modelled. Between classes that meet and classes that keep apart by eps the solver's tolerance leaves the sign of the margin open.
- CompactModel.Train: two-class training is an arbitrary function of the points and their signs, with one coefficient for each point.
- DeltaStepping.StepKeeps: the hand-over between bins is one action; `HandoverRefines.StepSimulates` relates it to the threads' own actions.
- Handover.UndoneTake: the shared frontier is memory without a bound; that its fixed capacity suffices is not claimed.
- Betweenness.Scale: where no score is positive the not-a-number results of dividing zero by zero are not modelled.
- Relabel.Hybrid: the heuristic that decides about relabelling is an arbitrary choice.
- AckCounter.AcknowledgedCounter.Acknowledge: keys are unbounded, so the wrap-around of 64-bit keys after 2^64 inserts is not modelled.
