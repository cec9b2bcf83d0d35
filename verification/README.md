# Verified model of PointCloudAD

PointCloudAD inspects a scanned surface against a reference: it registers the scan, compares the two
surfaces in both directions, clusters the deviations and decides PASS, FAIL or INDETERMINATE. Its promise is
that the result depends on the inputs alone: not on thread scheduling or worker count, not on the order in
which a library lists neighbours or a hash map its buckets, and not on what a reused context did before.
This project models the code behind that promise in Dafny and proves it. `dafny verify dfyconfig.toml`
checks everything.

The parts, from the bottom up:

- **Parallel executor.** `Executor` is the generation/pending barrier as a step system in which every lock,
  critical section, wait, wakeup, notification and callback micro-step is one action. `ExecutorSafety` proves
  an invariant over every interleaving and what a run delivers; `ExecutorLiveness` proves that nothing gets
  stuck and a rank that bounds every run. `CpuExecutor` is the object the rest of the library calls.
- **Fixed-block jobs.** `BlockJobs` covers the library's two kinds of callback, filling a buffer and
  accumulating per-block totals, for an addition about which nothing is assumed.
- **Exact search.** `Nearest` has the CPU recheck, the exhaustive oracle and the tiled kernel; `TreeSearch` the
  searches through the library's tree, whose reported distances are only approximate. `SpatialIndex`,
  `SpatialIndexBuild`, `SpatialIndexUnique` and `SpatialIndexWalk` have the flat preorder hierarchy: its
  in-place construction over any nth_element, the uniqueness of its layout, and the stackless walk, under any
  monotone rounding.
- **Clustering to verdict.** `DisjointSets` and `Clustering` are union-find with path compression and the
  canonical labels; `Surfaces`, `Fields`, `Statistics`, `Detection` and `Inspection` lead from stored grids
  to the verdict, which `Inspection.VerdictMeans` tells from the two surfaces alone: from their masks, normals,
  boundary marks and neighbours, and from chains of points within the tolerance.
- **Registration.** `Registration` is the iterative closest-point loop with its retained buffers, over
  uninterpreted floating-point operations; `RegistrationTrees` shows that the library's search trees do not show
  in its results; `InspectionContexts` is the pipeline with and without a prepared
  reference. `RigidMotion` and `RegistrationPoses` treat poses over exact reals. `Kernels` compares the
  scalar and the four-lane kernels operation by operation; `Objective`, `GicpInformation` and
  `RegistrationEquations` say what they compute and what equation the solver is given, and `RegistrationMetrics`
  what is reported of a solution.
- **Data layout.** `Voxels` is voxel sampling with its compressed source mapping, `Codec` the point-cloud byte
  format, `Utf8` the text check.

Where floating-point rounding matters to a claim, operations are uninterpreted functions (executor, registration,
kernels) or arbitrary monotone roundings (the walk); geometry and statistics are over exact reals, with the square
root, sine, cosine and arc cosine as parameters of which only their laws are used. Libraries enter through contracts: a radius
search lists exactly the points of the ball in any order, a nearest search reports a squared distance at most a
millionth too small, nth_element separates the sides and no more, a hash map
is iterated in any order, and the 6x6 solve returns any twist or none.

Four claims hold only on a condition, and are stated with it in both directions. The CPU search, over the ball
whose radius is widened from the tree's reported distance, equals exhaustive search exactly when the smallest
distance is beyond the bound or within that radius (`TreeSearch.SearchIsExactWhen`); a report at most a millionth
too small always suffices, and `TreeSearch.MisreportIsMissed` shows one that does not. Saving and loading a surface
is exact just when the bytes of one row fit the 32-bit row step (`Codec.RoundTrip`). Otherwise the row step wraps
and the decoder refuses the file; or, beyond 2^32 points without a grid, the width is truncated first, and then the
source divides by zero, or the file is refused, or it loads with points missing (`Codec.TripFails`). Gram-Schmidt
delivers a rotation exactly for independent columns (`RigidMotion.OrthonormalizeIsRigid`). No twists take a
registration out of that case, and to a pose that is refused, exactly when the first two entries of the initial
pose's last row are zero, its columns independent and its last row near (0, 0, 0, 1)
(`RegistrationPoses.SturdyIsExact`); `RigidTransform::create` accepts a tolerance there, and from such a pose some
translation destroys a column (`RegistrationPoses.AcceptedNotSturdy`, `RigidMotion.TranslationDestroys`).

## Model

| member | source | states |
|---|---|---|
| `Executor.Blocks` | src/registration/cpu_executor.hpp:22-24 | The least number of 256-point blocks that covers the points: enough room, and one block fewer would not be enough. |
| `Executor.Concurrency` | src/registration/cpu_executor.hpp:25-31 | The thread count is positive, within the budget, 64 and the blocks of the capacity, and equal to one of the three; only a zero budget is refused. |
| `ExecutorSafety.StepKeepsInv` | src/registration/cpu_executor.hpp:49-115 | Every action of every thread, spurious wakeups and new calls included, keeps the whole invariant: exact mutex ownership, exact pending count, generations at most one apart, no lost wakeup, every block untouched, in progress or finished with exactly the cell it would have alone. |
| `ExecutorSafety.ReachableBarrier` | src/registration/cpu_executor.hpp:54-104 | In every state any schedule reaches: each worker has seen the current generation or the one before (modulo 2^64), pending counts exactly the workers not finished with it, an executing thread sees the published job and block count, and no two threads are in a critical section. |
| `ExecutorSafety.PublicationStable` | src/registration/cpu_executor.hpp:59-65 | No step of any thread changes the job, the block count or the number of error slots while some thread executes. |
| `ExecutorSafety.RunDelivers` | src/registration/cpu_executor.hpp:49-77 | From any reachable state, under any interleaving, a run that returns has started every block exactly once, on thread block mod count, leaves in every cell what the block computes alone, and rethrows what the sequential scan of the blocks' own failures gives. |
| `ExecutorSafety.FirstFaultIsLowest` | src/registration/cpu_executor.hpp:73-77 | run completes exactly when no block failed, and otherwise rethrows the failure of the lowest failing block. |
| `ExecutorSafety.RunIndependent` | src/registration/cpu_executor.hpp:17-18 | Two executors of any sizes and histories, under any two schedules, return the same cells and the same outcome. |
| `ExecutorLiveness.NeverStuck` | src/registration/cpu_executor.hpp:54-115 | While a run or the destructor has not finished, some thread can take a step that is not a spurious wakeup, and every enabled access is to allocated memory. |
| `ExecutorLiveness.CallerRankFalls` | src/registration/cpu_executor.hpp:54-78 | Every step of the caller lowers a rank over unstarted, executing and unacknowledged work. |
| `ExecutorLiveness.WorkerRankFalls` | src/registration/cpu_executor.hpp:88-104 | Every step of a worker lowers the same rank. |
| `ExecutorLiveness.SpuriousRank` | src/registration/cpu_executor.hpp:92 | A spurious wakeup raises the rank by at most two. |
| `ExecutorLiveness.StepsBounded` | src/registration/cpu_executor.hpp:49-115 | A schedule inside one call has at most as many steps as the rank it used up plus three for every spurious wakeup. |
| `ExecutorLiveness.RunCompletes` | src/registration/cpu_executor.hpp:49-115 | However a call to run or the destructor is scheduled, it has finished or can go on, and its length is bounded by the rank at its start plus three steps a spurious wakeup. |
| `CpuExecutorObject.Schedule` | src/registration/cpu_executor.hpp:88-104 | An arbitrary scheduler always finds a thread to run until the call is over. |
| `CpuExecutorObject.Execute` | src/registration/cpu_executor.hpp:49-78 | Driving the step system with that scheduler terminates, with the cells and the outcome of running every block alone. |
| `CpuExecutorObject.MakeExecutor` | src/registration/cpu_executor.hpp:25-41 | A zero budget is refused; otherwise a new executor satisfies the synchronization invariant with the computed number of threads. |
| `CpuExecutorObject.CpuExecutor.Run` | src/registration/cpu_executor.hpp:49-78 | run on an executor with any history: cells and outcome are those of running every block alone, and the executor is ready for the next run. |
| `BlockJobs.JoinSlices` | src/registration/cpu_executor.hpp:80 | The 256-point pieces of a buffer, put together in block order, are the buffer. |
| `BlockJobs.FillOverwrites` | src/backends/pcl/pcl_registration_backend.cpp:401-411 | A parallel fill that does not fail leaves f(0), ..., f(n - 1), whatever the buffer held before. |
| `BlockJobs.FillFails` | src/backends/pcl/pcl_registration_backend.cpp:246-293 | A parallel fill that fails reports the failure of the lowest failing point. |
| `BlockJobs.SumCells` | src/backends/pcl/pcl_registration_backend.cpp:499-542 | For an arbitrary addition, each block's slot ends as the sequential fold over its own points. |
| `BlockJobs.MergeInBlockOrder` | src/backends/pcl/pcl_registration_backend.cpp:543-548 | The merge loop computes the block-order fold of the slots. |
| `BlockJobs.BlocksTile` | src/backends/pcl/pcl_registration_backend.cpp:505-506 | Folding and merging lists of indices yields 0, ..., n - 1: the blocks visit every point once, in order. |
| `BlockJobs.ReductionIndependent` | src/backends/pcl/pcl_registration_backend.cpp:499-548 | For an arbitrary, non-associative addition and merge, two reductions on executors of any sizes, histories and schedules merge to one and the same fixed value. |
| `Nearest.RecheckIsNearest` | src/backends/pcl/pcl_registration_backend.cpp:360-371 | For any order of the tie candidates, with repetitions, the recheck returns the lexicographic minimum of (squared distance, index) within the inclusive bound, or -1 if there is none. |
| `Nearest.RecheckOrderIrrelevant` | src/backends/pcl/pcl_registration_backend.cpp:361-371 | Two listings of the same candidates give the same answer. |
| `Nearest.RecheckLoop` | src/backends/pcl/pcl_registration_backend.cpp:360-371 | The imperative loop computes that function. |
| `Nearest.RecheckIsExhaustive` | src/backends/pcl/pcl_registration_backend.cpp:355-371 | Rechecking the points of a ball equals exhaustive search exactly when nothing is within the bound or the nearest point is in the ball. |
| `Nearest.SlackIsCovered` | src/backends/pcl/pcl_registration_backend.cpp:356-358 | A reported squared distance that is at most a millionth too small widens to a radius that reaches the true distance. |
| `Nearest.RadiusMeans` | src/backends/pcl/pcl_registration_backend.cpp:356-358 | The widened ball reaches a point exactly when its distance exceeds the reported one by at most a millionth of it and a millionth more. |
| `Nearest.OracleIsNearest` | tests/unit/cuda_search_test.cpp:27-44 | The ascending exhaustive scan finds the lexicographic minimum over all points. |
| `Nearest.RecheckMatchesOracle` | src/backends/pcl/pcl_registration_backend.cpp:354-371 | Over the ball of radius sqrt(reported) * (1 + 1e-6) + 1e-6 the CPU recheck equals the exhaustive oracle if and only if the smallest squared distance is beyond the bound or at most the square of that radius. |
| `Nearest.TiledNearest` | src/backends/cuda/cuda_correspondence.cu:25-65 | One block of the kernel that scans the reference in shared tiles of 128, whatever a tile held before: each thread's query gets the oracle's answer, for every reference size. |
| `TreeSearch.SearchIsExactWhen` | src/backends/pcl/pcl_registration_backend.cpp:352-371 | With exact balls, the search through the tree equals exhaustive search if and only if the smallest distance is beyond the bound or within the radius widened from the reported one. |
| `TreeSearch.SearchIsExact` | src/backends/pcl/pcl_registration_backend.cpp:352-371 | When besides the report is at most a millionth too small, the search equals exhaustive search in ascending order, for every query, bound and listing order. |
| `TreeSearch.MisreportIsMissed` | src/backends/pcl/pcl_registration_backend.cpp:352-371 | The report matters: with exact balls, a report of zero for a point at distance one makes the search miss it. |
| `TreeSearch.ListsBallsIsStable` | src/backends/pcl/pcl_registration_backend.cpp:359 | Listing exactly the points of the ball, in any order, is listing the same points on every call. |
| `TreeSearch.RankedKeeps` | src/backends/pcl/pcl_registration_backend.cpp:259-267 | Sorting the ties by (distance, index) permutes them and leaves none before one that beats it. |
| `TreeSearch.ChooseIsChoice` | src/backends/pcl/pcl_registration_backend.cpp:265-271 | The sorted, cut and re-sorted ties are the k listed points that no other listed point beats, in ascending order. |
| `TreeSearch.ChooseIgnoresOrder` | src/backends/pcl/pcl_registration_backend.cpp:259-271 | Two listings of the same points, each once, lead to the same k indices, or both to too few. |
| `TreeSearch.NeighborhoodFails` | src/backends/pcl/pcl_registration_backend.cpp:252-269 | With exact balls, support is insufficient exactly when the tree finds fewer than k neighbours or the widened ball holds fewer than k points. |
| `TreeSearch.NeighborhoodIsExact` | src/backends/pcl/pcl_registration_backend.cpp:252-271 | When besides the k-th report is at most a millionth too small, the neighbourhood is that of the k nearest among all points, ties to smaller indices, and exists exactly when there are k points. |
| `TreeSearch.QueryScratch.QueryNearest` | src/backends/pcl/pcl_registration_backend.cpp:344-375 | The body of the search loop over retained buffers computes that search, whatever earlier queries left in them. |
| `TreeSearch.QueryScratch.SortTies` | src/backends/pcl/pcl_registration_backend.cpp:265-267 | The sort of the retained ties, in place. |
| `TreeSearch.QueryScratch.QueryNeighborhood` | src/backends/pcl/pcl_registration_backend.cpp:247-271 | The body of the covariance loop up to its eigensolver selects that neighbourhood, whatever the buffers held. |
| `SpatialIndex.WidestAxis` | src/backends/cuda/spatial_index.hpp:81-90 | The chosen axis has the largest extent. |
| `SpatialIndex.NodeCount` | src/backends/cuda/spatial_index.hpp:52 | A subtree over n points has at most n / 4 + 1 nodes, so the reservation suffices. |
| `SpatialIndex.EveryNodeRootsSubtree` | src/backends/cuda/spatial_index.hpp:15-25 | Every node roots a subtree laid out between itself and its escape over a contiguous packed range, so moving the cursor by one or by an escape visits or skips whole subtrees. |
| `SpatialIndex.ChildrenBuilt` | src/backends/cuda/spatial_index.hpp:99-103 | The children of an interior node are node i + 1 and the node its escape names, each a built subtree over one half, the second sharing the parent's escape. |
| `SpatialIndexUnique.SplitIsUnique` | src/backends/cuda/spatial_index.hpp:91-98 | Any two legal results of nth_element under the (coordinate, index) order put the same ids on each side. |
| `SpatialIndexUnique.SubtreeIsUnique` | src/backends/cuda/spatial_index.hpp:57-105 | Two subtrees built over the same ids agree in every node and every packed position. |
| `SpatialIndexUnique.IndexIsUnique` | src/backends/cuda/spatial_index.hpp:37-38 | Any two indexes over the same reference are identical: points, original indices and nodes. |
| `SpatialIndexBuild.NthElement` | src/backends/cuda/spatial_index.hpp:92-98 | Permutes the range in place so that nothing from the middle on precedes anything before it; the rest of the array is untouched. Nothing more is used of it. |
| `SpatialIndexBuild.Sort` | src/backends/cuda/spatial_index.hpp:79 | Sorts the leaf's ids in place and leaves the rest of the array alone. |
| `SpatialIndexBuild.Measure` | src/backends/cuda/spatial_index.hpp:60-75 | The bounds are attained extremes over the range and the minimum is its smallest id. |
| `SpatialIndexBuild.Builder.Build` | src/backends/cuda/spatial_index.hpp:57-105 | The recursive build permutes exactly its own range, appends to the nodes, and leaves a subtree whose every node has exact bounds, an exact minimum id, a median split or sorted leaf, and the right escape. |
| `SpatialIndexBuild.BuildFinite` | src/backends/cuda/spatial_index.hpp:49-111 | The finished index is a permutation with packed points and a tree over all of them, within the reserved node count. |
| `SpatialIndexBuild.BuildSpatialIndex` | src/backends/cuda/spatial_index.hpp:39-113 | Fails exactly for an empty, oversized or non-finite reference, each with its own error; otherwise the result is a valid index. |
| `SpatialIndexWalk.RoundedIsMonotone` | src/backends/cuda/cuda_correspondence.cu:83-95 | Exact operations followed by any monotone, sign-symmetric rounding meet the assumption of the walk. |
| `SpatialIndexWalk.BoxBound` | src/backends/cuda/cuda_correspondence.cu:83-95 | The rounded box distance never exceeds the rounded distance to a point in the box. |
| `SpatialIndexWalk.ExactDistance` | src/backends/cuda/cuda_correspondence.cu:83-95 | Without rounding, the distance of the walk is the squared Euclidean distance. |
| `SpatialIndexWalk.PrunedSubtree` | src/backends/cuda/cuda_correspondence.cu:96-100 | Skipping a subtree that the distance or the minimum id rules out keeps the answer over all points before its escape. |
| `SpatialIndexWalk.AtCursor` | src/backends/cuda/cuda_correspondence.cu:81-104 | What the node at the cursor says of its packed range, and where the cursor may go. |
| `SpatialIndexWalk.ScanLeaf` | src/backends/cuda/cuda_correspondence.cu:105-116 | The leaf loop extends the answer over the leaf's points, ties to the smaller original index. |
| `SpatialIndexWalk.IndexedNearest` | src/backends/cuda/cuda_correspondence.cu:69-120 | The stackless walk over any valid index returns the exhaustive oracle's answer for every query and bound, whatever it pruned. |
| `DisjointSets.RootsAreComponents` | src/backends/pcl/pcl_cluster_backend.cpp:27-61 | Two elements have the same root exactly when a chain of united pairs joins them. |
| `DisjointSets.DepthIsLogarithmic` | src/backends/pcl/pcl_cluster_backend.cpp:35-40 | 2 to the depth of an element is at most the number of elements. |
| `DisjointSets.CompressionKeepsRoots` | src/backends/pcl/pcl_cluster_backend.cpp:37 | Pointing an element at its root changes nobody's root. |
| `DisjointSets.LinkKeeps` | src/backends/pcl/pcl_cluster_backend.cpp:48-55 | Linking two roots keeps ranks rising along links, a root of rank k with at least 2^k members, and the correspondence of roots to components. |
| `DisjointSets.UnionFind.constructor` | src/backends/pcl/pcl_cluster_backend.cpp:29-33 | A new forest has every element alone. |
| `DisjointSets.UnionFind.Find` | src/backends/pcl/pcl_cluster_backend.cpp:35-40 | Returns the root, compresses the path to it, changes no root, and terminates by rank. |
| `DisjointSets.UnionFind.Unite` | src/backends/pcl/pcl_cluster_backend.cpp:42-56 | The forest then represents the united pairs with this pair added. |
| `DisjointSets.UnionFind.Link` | src/backends/pcl/pcl_cluster_backend.cpp:48-55 | The higher rank wins and a tie raises the left root's rank. |
| `Clustering.CanonicalIsContiguous` | src/backends/pcl/pcl_cluster_backend.cpp:108-118 | Labels numbered on first appearance leave no gap. |
| `Clustering.CanonicalIsUnique` | src/backends/pcl/pcl_cluster_backend.cpp:108-118 | A partition has only one such labelling. |
| `Clustering.ClusteringIsUnique` | src/backends/pcl/pcl_cluster_backend.cpp:90-118 | The labels are a function of the candidates and the in-ball test: the order of neighbours does not show. |
| `Clustering.UniteNeighbors` | src/backends/pcl/pcl_cluster_backend.cpp:90-106 | The neighbour loop unites exactly the pairs within the tolerance. |
| `Clustering.NumberTrees` | src/backends/pcl/pcl_cluster_backend.cpp:108-118 | Labels are numbered on first appearance, and two are equal exactly when united pairs join the candidates. |
| `Clustering.EuclideanCluster` | src/backends/pcl/pcl_cluster_backend.cpp:65-126 | Fails exactly for a tolerance that is not finite and positive; otherwise two candidates share a label if and only if a chain of links within the tolerance joins them. |
| `Surfaces.StorageIncreasing` | include/pointcloud_ad/surface.hpp:102-110 | Logical points occupy distinct, ascending places inside the storage. |
| `Surfaces.ForEachLogicalIndex` | src/backends/pcl/pcl_io_backend.cpp:73-86 | The nested row and column loops enumerate the closed-form storage index of every logical point in order. |
| `Surfaces.GuardIsExact` | include/pointcloud_ad/surface.hpp:63-67 | The division guard rejects exactly the grids whose storage size a 64-bit size_t cannot count. |
| `Surfaces.LogicalFitsStorage` | include/pointcloud_ad/surface.hpp:75 | The logical size is at most the storage size, so it does not wrap either. |
| `Surfaces.CheckGrid` | include/pointcloud_ad/surface.hpp:53-76 | Accepts exactly the grids that describe the storage. |
| `Surfaces.CheckIndex` | include/pointcloud_ad/surface.hpp:78-92 | Accepts exactly the points with a proper mask element that are finite, normal included, if marked valid. |
| `Surfaces.GridFaultMeans` | include/pointcloud_ad/surface.hpp:53-76 | Each grid error is reported exactly when it is the first: an empty grid, a stride below the width, a storage beyond 64 bits, a storage of another size. |
| `Surfaces.SurfaceFaultMeans` | include/pointcloud_ad/surface.hpp:36-113 | Each error of a surface is reported exactly when it is the first: no points, normals of another size, a mask of another size, the grid, a logical point. |
| `Surfaces.PointFaultMeans` | include/pointcloud_ad/surface.hpp:78-113 | Of the logical points the first bad one is reported, a mask element above 1 before a point and a point before a normal that is not finite. |
| `Surfaces.ValidateSurfaceData` | include/pointcloud_ad/surface.hpp:36-113 | Accepts exactly the surfaces of the contract, padding not looked at, and returns the logical size; otherwise reports the first fault, of the shape or of the first bad logical point. |
| `Fields.CollectValid` | src/backends/pcl/pcl_comparison_backend.cpp:52-61 | The storage indices of the valid logical points, in order. |
| `Fields.ValidIndicesComplete` | src/backends/pcl/pcl_comparison_backend.cpp:54-61 | The collected storage indices are exactly those of the valid logical points. |
| `Fields.ValidIndicesAscend` | src/backends/pcl/pcl_comparison_backend.cpp:54-61 | They rise strictly, so no point is collected twice. |
| `Fields.NearestNeighbors` | src/backends/pcl/pcl_comparison_backend.cpp:48-130 | For every thread count and schedule, each valid logical query point gets its own filtered answer at its own storage index, all others none; the closed-form index of the parallel loop agrees with the nested enumeration. |
| `Fields.NeighborMeans` | src/backends/pcl/pcl_comparison_backend.cpp:78-108 | A point has a neighbour exactly when it is valid and logical and the library reports a hit within the squared limit at a position among the indexed points; the neighbour is the valid logical point at that position, its distance the root of the squared one. |
| `Fields.ComputeDeviation` | src/comparison/deviation_field.cpp:56-146 | Fails exactly on wrong units, missing normals, a wrong boundary size or no threads, reporting the first of these; the samples are those of the logical points, padding stays unset, and valid_count counts the trusted ones. |
| `Fields.DeviationFaultMeans` | src/comparison/deviation_field.cpp:61-78 | Each error is reported exactly when it is the first: reference unit, scan unit, missing normals, boundary size, search. |
| `Fields.DeviationReasons` | src/comparison/deviation_field.cpp:87-143 | Each of the six reasons is given exactly when it is the first that applies: not a valid logical point, no neighbour, no usable normal, a normal beyond the angle, a marked neighbour, or none of these; with the distance, angle and signed value that each carries. |
| `Fields.ComputeCoverage` | src/comparison/coverage_field.cpp:41-94 | Fails exactly on wrong units, a wrong boundary size or no threads, reporting the first of these; both counters count what they are named for. |
| `Fields.CoverageFaultMeans` | src/comparison/coverage_field.cpp:44-63 | Each error is reported exactly when it is the first: reference unit, scan unit, boundary size, search. |
| `Fields.CoverageReasons` | src/comparison/coverage_field.cpp:71-90 | Each of the four reasons is given exactly when it is the first that applies: not a valid logical point, no neighbour, a marked neighbour, or none of these; with the distance that each carries. |
| `Statistics.Sort` | src/comparison/comparison_statistics.cpp:51 | The sorted values, which no other sorting could give differently. |
| `Statistics.PercentileIndex` | src/comparison/comparison_statistics.cpp:52-56 | The clamped index is the nearest rank: 20 (k + 1) >= 19 n > 20 k. |
| `Statistics.DoublePercentile` | src/comparison/comparison_statistics.cpp:52-53 | For up to 2^48 values, the rounded product of the double 0.95 and the size has the ceiling that the exact product has. |
| `Statistics.PercentileIsNearestRank` | src/comparison/comparison_statistics.cpp:51-57 | p95 is one of the magnitudes, at least 95% of them are at or below it and fewer than 95% strictly below. |
| `Statistics.PercentileIsUnique` | src/comparison/comparison_statistics.cpp:51-57 | No other magnitude has that rank. |
| `Statistics.SummaryOrder` | src/comparison/comparison_statistics.cpp:46-58 | The absolute mean is at most the RMS, the RMS at most the peak, and p95 lies between zero and the peak. |
| `Statistics.SummaryMeans` | src/comparison/comparison_statistics.cpp:46-49 | The mean times the number of values is their sum, the square of the RMS times that number the sum of their squares, and the peak bounds every magnitude and is one. |
| `Statistics.Describe` | src/detection/defect_region.cpp:98-121 | One pass, two divisions and a sort give the mean, RMS, peak and percentile; all zero for no values. |
| `Statistics.SummarizeDeviation` | src/comparison/comparison_statistics.cpp:10-61 | Every counter counts its reason, and the summary is that of the trusted deviations. |
| `Statistics.TrustedValuesMean` | src/comparison/comparison_statistics.cpp:19-27 | What is summarized are the signed deviations at the trusted positions, each once, in storage order. |
| `Statistics.CountersPartition` | src/comparison/comparison_statistics.cpp:19-44 | The valid counter and all reason counters add up to the storage size, padding included. |
| `Statistics.SummarizeCoverage` | src/comparison/comparison_statistics.cpp:63-86 | Every counter counts its reason; the ratio is covered over valid, zero without valid points. |
| `Statistics.RatioMeans` | src/comparison/coverage_field.hpp:53-57 | The ratio lies in [0, 1] and times the valid count is the covered count; it is zero when nothing is valid. |
| `Statistics.CoveragePartition` | src/comparison/coverage_field.cpp:68-93 | Covered, uncovered and boundary points add up to the valid count, and with the masked ones to the storage size. |
| `Detection.CollectCandidates` | src/detection/defect_cluster.cpp:28-39 | The storage indices whose sample passes the test, ascending. |
| `Detection.GroupByLabel` | src/detection/defect_cluster.cpp:51-54 | Each label's bucket lists its candidates in order. |
| `Detection.GroupIsComponent` | src/detection/defect_cluster.cpp:51-54 | A bucket is exactly one tolerance-connected component of the candidates, in storage order. |
| `Detection.ComponentIsReached` | src/backends/pcl/pcl_cluster_backend.cpp:90-118 | The component of a point is what chains of points that pass the test, each within the tolerance of the next, lead to from it. |
| `Detection.FindClusters` | src/detection/defect_cluster.cpp:24-68 | For every iteration order of the hash map, the clusters are the large enough buckets; fails only for a tolerance that is not positive. |
| `Detection.ClusterDeviations` | src/detection/defect_cluster.cpp:70-98 | A wrong unit and a field of another size are refused, in that order; otherwise the clusters are the bumps followed by the dents. |
| `Detection.ClusterMissing` | src/detection/defect_cluster.cpp:116-170 | The same two refusals; otherwise the clusters of uncovered reference points. |
| `Detection.ClustersOnlyComponents` | src/detection/defect_cluster.cpp:56-67 | Every cluster is a component with at least the configured number of points, listed in storage order. |
| `Detection.ClustersAllComponents` | src/detection/defect_cluster.cpp:129-162 | Every such component is a cluster. |
| `Detection.ClustersPermuted` | src/detection/defect_cluster.cpp:56-67 | Two iteration orders of the hash map give the same clusters up to order. |
| `Detection.MeasureRegion` | src/detection/defect_region.cpp:33-121 | Fails exactly for a wrong unit, a wrong field size or a member that is out of range or invalid; otherwise reports the id, type, size and deviation summary of the members. |
| `Detection.MeasureAll` | src/pipeline/inspection_pipeline.cpp:344-368 | The measuring loop fails exactly when some cluster cannot be measured, numbers regions consecutively, and flags exactly the lists with a rejected region. |
| `Inspection.SeverityIsPeak` | src/pipeline/inspection_pipeline.cpp:99-109 | A measured deviation cluster is rejected exactly when the magnitude of one of its deviations is at least twice the positive and twice the negative threshold. |
| `Inspection.RegionMeans` | src/pipeline/inspection_pipeline.cpp:345-392 | A region carries its id, type and size, the summary of its members' signed deviations in order, and a warning unless one of them is that large; missing material is always rejected and carries zeros. |
| `Inspection.DeviationRejects` | src/pipeline/inspection_pipeline.cpp:345-368 | The reject flag of a class of deviation clusters is set exactly when some large component of the class has such a point. |
| `Inspection.MissingRejects` | src/pipeline/inspection_pipeline.cpp:369-392 | The reject flag of the missing-material clusters is set exactly when there is a large uncovered component. |
| `Inspection.ClustersMeasurable` | src/detection/defect_region.cpp:36-59 | Clusters of valid points can always be measured. |
| `Inspection.Detect` | src/pipeline/inspection_pipeline.cpp:329-393 | Detection never fails on comparable surfaces, and its reject flag says whether the part is defective in terms of connected components. |
| `Inspection.Inspect` | src/pipeline/inspection_pipeline.cpp:241-404 | From the gate to the verdict: FAIL exactly when gate, coverage and evidence suffice and some component of at least min_cluster_points is uncovered or holds a bump or dent of twice the larger threshold; PASS when none is; INDETERMINATE otherwise. Only the comparison can fail, and exactly on inputs it refuses. |
| `Inspection.SceneFaultMeans` | src/pipeline/inspection_pipeline.cpp:271-285 | Each comparison error is reported exactly when it is the first of the deviation field's and then the coverage field's. |
| `Inspection.DefectiveMeans` | src/pipeline/inspection_pipeline.cpp:329-393 | The part is to be rejected exactly when chains of bumps or of dents join at least the configured number of scan points with one that deviates by at least twice either threshold, or chains of uncovered points that many reference points; bump, dent and uncovered written out in terms of neighbours, marks and normals. |
| `Inspection.VerdictMeans` | src/pipeline/inspection_pipeline.cpp:241-404 | The verdict told from the two surfaces alone: INDETERMINATE exactly without the gate, with too few covered reference points or without a deviation that counts; otherwise FAIL exactly for such a bump, dent or gap. |
| `Inspection.RegionIds` | src/pipeline/inspection_pipeline.cpp:344-392 | Region ids run 0, 1, ..., in report order. |
| `Inspection.SameRegions` | src/pipeline/inspection_pipeline.cpp:344-392 | Two reports of one scene list the same regions up to order and ids. |
| `Inspection.ReportsAgree` | src/pipeline/inspection_pipeline.cpp:241-404 | Verdict, statistics and coverage do not depend on hash order, thread interleaving or neighbour order. |
| `Inspection.ReportIgnoresThreads` | src/pipeline/inspection_pipeline.cpp:271-404 | Any positive number of threads gives the same reports, and the same failure where surfaces cannot be compared. |
| `Registration.NeighborIgnoresOrder` | src/backends/pcl/pcl_registration_backend.cpp:355-371 | The neighbour of a point does not depend on the order in which a call of the library lists the ties. |
| `Registration.CovarianceIgnoresOrder` | src/backends/pcl/pcl_registration_backend.cpp:258-290 | Nor does the covariance of a point. |
| `Registration.NeighborsAreExact` | src/backends/pcl/pcl_registration_backend.cpp:326-375 | Under the library's contracts every scan point is paired with the answer of exhaustive search over the reference. |
| `Registration.CovarianceIsExact` | src/backends/pcl/pcl_registration_backend.cpp:252-290 | Under those contracts a covariance is that of the point's k nearest points of its cloud, and support is insufficient exactly for a cloud of fewer points. |
| `Registration.CovarianceRun` | src/backends/pcl/pcl_registration_backend.cpp:220-295 | The parallel covariance estimate ends in the sequential one's values, or in the failure of the lowest failing point. |
| `RegistrationTrees.AlignedIgnoresTrees` | src/backends/pcl/pcl_registration_backend.cpp:445-668 | Two search trees over the same points that meet the contracts, however their reports and listings differ, lead to the same result of a registration. |
| `Registration.StoppedStays` | src/backends/pcl/pcl_registration_backend.cpp:486-593 | Once an iteration has stopped the loop, more iterations would change nothing. |
| `Registration.IteratesKeep` | src/backends/pcl/pcl_registration_backend.cpp:486-593 | A property of poses that every increment keeps holds of every iterate, and the completed count is at most the iterations. |
| `Registration.CompletedCountsTwists` | src/backends/pcl/pcl_registration_backend.cpp:586-587 | The current pose is the initial one moved by exactly as many twists as iterations are completed; a loop still going has completed all of them. |
| `Registration.PreviousMean` | src/backends/pcl/pcl_registration_backend.cpp:485-579 | The remembered residual is the mean residual at the pose before the last step. |
| `Registration.GoingMeans` | src/backends/pcl/pcl_registration_backend.cpp:562-592 | While the loop is going, every earlier pose had at least six pairs, full rank where asked, a finite and not small twist, and a mean residual that had not stopped falling since the pose before. |
| `Registration.StoppedMeans` | src/backends/pcl/pcl_registration_backend.cpp:562-592 | A loop that stopped did so at some iteration: degenerate exactly with too few pairs or a deficient rank, or, the residual still falling, without a finite twist; converged exactly, these apart, with the mean residuals at its pose and the pose before flat, the pose unchanged, or else on a small twist that was still applied. |
| `Registration.ExtractMeans` | src/backends/pcl/pcl_registration_backend.cpp:192-212 | The cloud lists the valid logical points once each in storage order, with the unit normal of each if the surface has normals. |
| `Registration.SolutionMeans` | src/backends/pcl/pcl_registration_backend.cpp:594-656 | A solution is the initial pose moved by as many twists as iterations are reported, made rigid, and has passed the rigidity check; it is reported converged, degenerate or not converged as its loop ended, the last only after the maximum of iterations; its sums are those of the final pass at the delivered pose. |
| `Registration.FailureMeans` | src/backends/pcl/pcl_registration_backend.cpp:464-668 | Each failure is reported exactly when it is the first: no valid point, too few points for covariances, the covariance of the lowest point without one, an iterate out of the search range, a pose that is not rigid, a delivered pose out of the range. |
| `Registration.CovariancesMean` | src/backends/pcl/pcl_registration_backend.cpp:220-295 | The estimate holds the covariance of every point, or reports the failure of the lowest point that has none. |
| `Registration.IterationsFail` | src/backends/pcl/pcl_registration_backend.cpp:326-352 | The loop fails exactly at an iterate, still going, that takes a point out of search precision. |
| `Registration.Prepared.ExtractValid` | src/backends/pcl/pcl_registration_backend.cpp:192-212 | The valid logical points in order, with their unit normals when there are any. |
| `Registration.Prepared.TransformPoints` | src/backends/pcl/pcl_registration_backend.cpp:401-411 | The retained buffer is overwritten with the transformed points whatever it held. |
| `Registration.Prepared.Query` | src/backends/pcl/pcl_registration_backend.cpp:326-375 | Fails exactly when a transformed point leaves search precision; otherwise every retained result is overwritten with its own point's neighbour, each query listing its ball in an order of its own. |
| `Registration.Prepared.Evaluate` | src/backends/pcl/pcl_registration_backend.cpp:492-548 | Transform, search, accumulate and merge give the fixed-block total at the pose, for uninterpreted arithmetic and every thread count. |
| `Registration.Prepared.EstimateCovariances` | src/backends/pcl/pcl_registration_backend.cpp:220-295 | Whatever order each point's ball is listed in, the per-point covariances, or the failure of the lowest point without one. |
| `Registration.Prepared.RunIterations` | src/backends/pcl/pcl_registration_backend.cpp:481-593 | The loop with its four exits computes the specified iteration. |
| `Registration.Prepared.Align` | src/backends/pcl/pcl_registration_backend.cpp:445-668 | The result is a function of reference, scan and initial pose alone, whatever earlier scans left in the buffers and however many threads there are. |
| `Registration.CheckCloud` | src/backends/pcl/pcl_registration_backend.cpp:670-685 | The first fault of a reference cloud: no points, in plane mode no or zero normals, in GICP mode a failing covariance. |
| `Registration.CreateContext` | src/registration/registration_engine.cpp:42-84 | Succeeds exactly for accepted parameters, millimetres, a capacity in [1, INT32_MAX], a surface that meets the contract, a positive thread budget and a usable reference cloud; otherwise reports the first of these that fails. |
| `Registration.CreateFaultMeans` | src/registration/registration_engine.cpp:42-84 | Each reason to make no context is reported exactly when it is the first: parameters, unit or capacity, reference surface, threads, no points, no normals, a zero normal, covariances. |
| `Registration.RegistrationContext.Align` | src/registration/registration_engine.cpp:90-120 | Answers a request as its own data determine, with the capacity, input, surface and solver errors in that order. |
| `Registration.ContextAnswerMeans` | src/registration/registration_engine.cpp:90-120 | Each refusal is reported exactly when it is the first: size, request, scan surface; then the answer is what the registration gives. |
| `Registration.RegisterSurfaces` | src/registration/registration_engine.cpp:131-156 | One-shot registration refuses a bad request, then reports why no context can be made, and otherwise answers as a context of exactly the scan's size. |
| `Registration.AlignHistory` | src/registration/registration_engine.cpp:90-120 | In any history of accepted and rejected scans, every answer is the one its own request determines. |
| `Registration.ReuseAgrees` | src/registration/registration_engine.cpp:90-156 | After any history, with any two thread counts, a scan within capacity gets from the context exactly what one-shot registration returns. |
| `InspectionContexts.RunsAgree` | src/pipeline/inspection_pipeline.cpp:123-404 | Two runs on the same prepared reference, scan and pose end in the same failure or in the same report up to region order and ids. |
| `InspectionContexts.RunMeans` | src/pipeline/inspection_pipeline.cpp:123-404 | A run that ends in a report has normalized, prepared and registered its scan; with the gate passed it has aligned it to a comparable scene, and its verdict is the one that scene calls for. |
| `InspectionContexts.RunIgnoresThreads` | src/pipeline/inspection_pipeline.cpp:123-404 | A whole run on other positive numbers of threads, in registration and comparison, has the same outcomes. |
| `InspectionContexts.InspectionContext.Run` | src/pipeline/inspection_pipeline.cpp:498-515 | After any history, rejects a scan over capacity and otherwise ends as a run with a fresh context would. |
| `InspectionContexts.OpenContext` | src/pipeline/inspection_pipeline.cpp:462-497 | Opens exactly for a capacity in [1, INT32_MAX], a valid configuration and a reference that can be prepared and registered against; otherwise reports the first of these that fails. |
| `InspectionContexts.OpenFaultMeans` | src/pipeline/inspection_pipeline.cpp:462-497 | Which reason not to open is reported: the first of capacity, configuration, normalization, preparation and registration context. |
| `InspectionContexts.EarlyFaultMeans` | src/pipeline/inspection_pipeline.cpp:123-240 | Which fault ends a run before registration: the first of normalizing the reference, normalizing the scan, preparing each, the pose's direction and the registration context. |
| `InspectionContexts.RunPipeline` | src/pipeline/inspection_pipeline.cpp:434-445 | The one-shot pipeline ends in the first fault of its stages, both surfaces normalized before either is prepared, and otherwise meets the specification of a context run. |
| `InspectionContexts.ContextAgrees` | src/pipeline/inspection_pipeline.cpp:434-515 | After any history of accepted and rejected scans, inspecting through a context agrees with the one-shot pipeline, on any other positive numbers of threads, for every scan within capacity. |
| `RigidMotion.Multiply` | src/backends/pcl/pcl_registration_backend.cpp:71-83 | The triple loop computes the matrix product. |
| `RigidMotion.ProductComposes` | src/backends/pcl/pcl_registration_backend.cpp:71-83 | The product acts on points as one transform after the other. |
| `RigidMotion.ProductDeterminant` | src/backends/pcl/pcl_registration_backend.cpp:71-83 | Determinants of rotation blocks multiply. |
| `RigidMotion.DeltaDeterminant` | src/backends/pcl/pcl_registration_backend.cpp:108-138 | A Rodrigues increment has determinant 1, a first-order one 1 + r.r. |
| `RigidMotion.DeltaTurns` | src/backends/pcl/pcl_registration_backend.cpp:108-142 | An increment of ordinary size leaves the unit axis k of its rotation where it is, takes every v orthogonal to k to cos v + sin (k x v), the right-handed way, and adds the translation. |
| `RigidMotion.IncrementKeeps` | src/backends/pcl/pcl_registration_backend.cpp:586 | Every increment, by either branch, keeps the last row exact and the determinant positive. |
| `RigidMotion.OrthonormalizeIsRigid` | src/backends/pcl/pcl_registration_backend.cpp:143-159 | Gram-Schmidt delivers an exact rotation if and only if the first two columns are independent. |
| `RigidMotion.OrthonormalizeIsRotation` | src/backends/pcl/pcl_registration_backend.cpp:143-159 | Whatever the last row, which stays, the result is a rotation for independent columns and has a zero column otherwise. |
| `RigidMotion.OrthonormalizeMeans` | src/backends/pcl/pcl_registration_backend.cpp:143-159 | The translation and the last row stay; of independent columns the first keeps its direction and the second its side of the first. |
| `RigidMotion.OrthonormalizeKeepsRigid` | src/backends/pcl/pcl_registration_backend.cpp:143-159 | A pose that is rigid stays as it is. |
| `RigidMotion.IncrementKeepsIndependent` | src/backends/pcl/pcl_registration_backend.cpp:586 | With the first two entries of the last row zero, every increment keeps the first two columns independent and the last row as it is. |
| `RigidMotion.TranslationDestroys` | src/backends/pcl/pcl_registration_backend.cpp:586 | With one of them nonzero, some pure translation makes the columns dependent. |
| `RigidMotion.IndependentColumns` | src/backends/pcl/pcl_registration_backend.cpp:140-143 | A nonzero determinant makes them independent. |
| `RigidMotion.InverseIsTwoSided` | src/backends/pcl/pcl_registration_backend.cpp:85-105 | inverse_rigid is a left and a right inverse of every rigid pose. |
| `RigidMotion.Create` | include/pointcloud_ad/geometry.hpp:147-190 | A tolerance that is not finite and positive, then an element that is not finite, are refused as such; otherwise it accepts exactly the matrices within the tolerance of a rigid one and returns them unchanged. |
| `RigidMotion.CheckMatrix` | include/pointcloud_ad/geometry.hpp:160-186 | The triple loop and the determinant test accept exactly those matrices, and tell exactly whether the last row, the columns or the determinant is the first to fail. |
| `RigidMotion.AcceptedMeans` | include/pointcloud_ad/geometry.hpp:160-186 | Accepted means that no entry of the last row, no scalar product of columns and not the determinant misses its value by more than the tolerance. |
| `RigidMotion.FromRowsAt` | include/pointcloud_ad/geometry.hpp:147-160 | The sixteen elements are the entries of the matrix row by row. |
| `RigidMotion.RigidIsAccepted` | include/pointcloud_ad/geometry.hpp:160-186 | A matrix is rigid if and only if it is accepted at every positive tolerance. |
| `RegistrationPoses.StepMoves` | src/backends/pcl/pcl_registration_backend.cpp:586 | A step moves each point as the increment of its twist moves what the pose before made of it. |
| `RegistrationPoses.IteratesOrientable` | src/backends/pcl/pcl_registration_backend.cpp:481-593 | From such an initial pose, every iterate of a run keeps the last row exact and the determinant positive, whatever twists the solver returned. |
| `RegistrationPoses.FinishedIsRigid` | src/backends/pcl/pcl_registration_backend.cpp:594-599 | orthonormalize turns such a pose into a rigid one that RigidTransform::create accepts. |
| `RegistrationPoses.SturdyIsExact` | src/backends/pcl/pcl_registration_backend.cpp:481-599 | No sequence of twists leads from an initial pose to one that create refuses if and only if its first two columns are independent, its last row is near (0, 0, 0, 1), and the first two entries of that row are exactly zero. |
| `RegistrationPoses.AcceptedIsSturdy` | include/pointcloud_ad/geometry.hpp:147-190 | An accepted initial pose qualifies exactly when those two entries are zero; one with an exact last row is orientable. |
| `RegistrationPoses.AcceptedNotSturdy` | include/pointcloud_ad/geometry.hpp:147-190 | The default tolerance accepts a pose that does not qualify: the identity with 1e-9 in the last row. |
| `RegistrationPoses.RunsEndRigid` | src/backends/pcl/pcl_registration_backend.cpp:445-599 | From a qualifying initial pose no run fails for a pose that is not rigid, and the delivered pose is accepted; from one with an exact last row it is rigid and undone by inverse_rigid. |
| `RegistrationPoses.KernelIsApply` | src/registration/cpu_kernels.cpp:6-14 | In exact arithmetic the transform kernel applies the pose as RigidTransform::apply does. |
| `RegistrationPoses.JacobianIsFirstOrder` | src/registration/cpu_objective.hpp:32-33 | A first-order increment moves a point by exactly the objective's Jacobian times its twist. |
| `RegistrationEquations.BlocksVanish` | src/backends/pcl/pcl_registration_backend.cpp:499-548 | In exact arithmetic the block-wise total reads as the plain sum over all points in order. |
| `RegistrationEquations.EquationMeans` | src/backends/pcl/pcl_registration_backend.cpp:499-548 | At a pose, every matrix entry is the sum of w J^T Omega J over the accepted pairs of points p and q, every entry of the right-hand side the sum of -w J^T Omega (p - q), and the residual the sum of the distances between p and q or along the normal. |
| `RegistrationEquations.PairsMean` | src/backends/pcl/pcl_registration_backend.cpp:492-535 | Under the library's contracts, the pairs are the accepted ones among each scan point, moved by the pose, and its exhaustively nearest reference point, in point order. |
| `RegistrationEquations.PairsAreCounted` | src/backends/pcl/pcl_registration_backend.cpp:540-547 | The correspondence count is the number of accepted pairs, at most one a scan point. |
| `RegistrationEquations.MetricsMean` | src/backends/pcl/pcl_registration_backend.cpp:603-631 | The final pass sums the squared distances of the accepted pairs, between the points or along the normal, which is not negative, and counts the pairs, at most one a scan point. |
| `RegistrationMetrics.CreateMetrics` | include/pointcloud_ad/registration.hpp:196-224 | Refuses, in order, a fitness outside [0, 1], a residual or translation that is negative, a rotation outside [0, 180], or any of them not finite; accepts all else unchanged. |
| `RegistrationMetrics.Measure` | src/backends/pcl/pcl_registration_backend.cpp:632-656 | From a sum of squares over at most as many pairs as points, the numbers are never refused; fitness times points is the number of pairs, the square of the residual times the pairs that sum, and the square of the translation the squared length of the relative translation. |
| `RegistrationMetrics.RelativeMeans` | src/backends/pcl/pcl_registration_backend.cpp:647 | The relative pose takes what a rigid initial pose makes of a point to what the final pose makes of it. |
| `RegistrationMetrics.DegreesMeans` | src/backends/pcl/pcl_registration_backend.cpp:649-656 | For a turn by an angle up to half a turn, the rotation reported is that angle in degrees. |
| `RegistrationMetrics.AlignAndMeasure` | src/backends/pcl/pcl_registration_backend.cpp:445-668 | With its metrics, an alignment fails only where the registration does, and reports the numbers of the solution, each in its range. |
| `RegistrationEquations.EquationIsSemidefinite` | src/backends/pcl/pcl_registration_backend.cpp:535-579 | The matrix given to the solver is symmetric and positive semidefinite when every accepted pair's information is. |
| `GicpInformation.InverseIsSemidefinite` | src/backends/pcl/pcl_registration_backend.cpp:522-526 | The inverse of a symmetric positive semidefinite matrix is symmetric and positive semidefinite. |
| `GicpInformation.RegularizedIsSemidefinite` | src/backends/pcl/pcl_registration_backend.cpp:288-290 | V diag(epsilon, 1, 1) V^T is symmetric and positive semidefinite for whatever V the eigensolver returned. |
| `GicpInformation.TurnedMeans` | src/backends/pcl/pcl_registration_backend.cpp:523-525 | The turned covariance weighs u as the covariance weighs r^T u. |
| `GicpInformation.SumIsSemidefinite` | src/backends/pcl/pcl_registration_backend.cpp:523-525 | So is the reference covariance plus the turned scan covariance. |
| `GicpInformation.GicpInverseExists` | src/backends/pcl/pcl_registration_backend.cpp:522-526 | For a positive epsilon and orthonormal eigenvectors the inverted sum is positive definite, so it has an inverse. |
| `GicpInformation.InverseIsUnique` | src/backends/pcl/pcl_registration_backend.cpp:522-526 | And only one. |
| `RegistrationEquations.AccumulationUsesObjective` | src/backends/pcl/pcl_registration_backend.cpp:506-548 | The accumulation of the source, with any acceptance test, is one that the equation theorems speak of. |
| `RegistrationEquations.InputsUseGicp` | src/backends/pcl/pcl_registration_backend.cpp:474-535 | So are its GICP inputs, with any acceptance test: none need look at covariances. |
| `RegistrationEquations.GicpEquation` | src/backends/pcl/pcl_registration_backend.cpp:445-579 | In GICP mode, for a positive epsilon and orthonormal eigenvectors, with the covariances estimated from the two clouds and any acceptance test, the matrix given to the solver is symmetric and positive semidefinite. |
| `Kernels.TransformScalar` | src/registration/cpu_kernels.cpp:6-14 | Every output point is the transform of the old input point, also when input and output are one array. |
| `Kernels.FourIsScalar` | src/registration/cpu_kernels_avx2.cpp:11-24 | The vector body moves each of four points by the same operations in the same order as the scalar body. |
| `Kernels.TransformAvx2` | src/registration/cpu_kernels_avx2.cpp:7-27 | For every length and tail, out of place and exactly in place, the result is the scalar kernel's, with addition and multiplication uninterpreted. |
| `Kernels.ScalarOuterRow` | src/registration/cpu_kernels.cpp:33-37 | Writes the weighted row and nothing else. |
| `Kernels.ScalarMatrixRow` | src/registration/cpu_kernels.cpp:38-43 | Writes the three-term row and nothing else. |
| `Kernels.AvxProducts` | src/registration/cpu_kernels_avx2.cpp:31-39 | The same three products as the scalar operation. |
| `Kernels.AvxOuterRow` | src/registration/cpu_kernels_avx2.cpp:40-43 | The four-lane and two-lane stores write the scalar operation's row and nothing else. |
| `Kernels.AvxMatrixRow` | src/registration/cpu_kernels_avx2.cpp:44-55 | The same for the three-term row. |
| `Kernels.Objective` | src/registration/cpu_objective.hpp:9-49 | With either set of operations the whole output is assigned, and to the same values, in all modes. |
| `Objective.HuberWeight` | src/registration/cpu_objective.hpp:16-20 | The weight lies in (0, 1], is 1 exactly up to delta, and times the residual is the smaller of residual and delta. |
| `Objective.ResidualMeans` | src/registration/cpu_objective.hpp:11-15 | The residual of a scan point p against a reference point q is n . (p - q) in plane mode, and otherwise the nonnegative number whose square is the squared distance of p and q. |
| `Objective.MatrixMeans` | src/registration/cpu_objective.hpp:21-48 | In all three modes the matrix is w J^T Omega J with Omega n n^T, the identity or the given information. |
| `Objective.GradientMeans` | src/registration/cpu_objective.hpp:21-48 | In all three modes the gradient is -w J^T Omega (p - q). |
| `Objective.OutputMeans` | src/registration/cpu_objective.hpp:9-49 | What the kernel leaves in its output arrays are those entries, in either set of operations. |
| `Objective.PlaneIsGeneral` | src/registration/cpu_objective.hpp:21-48 | The plane branch equals the general branch with information n n^T at the same weight. |
| `Objective.AccumulatedIsSemidefinite` | src/registration/cpu_objective.hpp:9-49 | Any sum of contributions with positive semidefinite informations is positive semidefinite. |
| `Objective.AccumulatedIsSymmetric` | src/registration/cpu_objective.hpp:9-49 | Any such sum is symmetric. |
| `Objective.PlaneAndPointSensible` | src/registration/cpu_objective.hpp:21-39 | The plane and the point mode always meet that condition. |
| `Utf8.EncodedIsChar` | include/pointcloud_ad/geometry.hpp:30-71 | Encoding a scalar value yields a character of the grammar in section 4 of RFC 3629 that carries the value and announces its own length. |
| `Utf8.CharIsEncoded` | include/pointcloud_ad/geometry.hpp:30-71 | Every character of that grammar is the encoding of the scalar value it carries. |
| `Utf8.RangeCheck` | include/pointcloud_ad/geometry.hpp:63-67 | After a proper lead and continuation bytes, the range test is exactly the grammar. |
| `Utf8.ReadScalar` | include/pointcloud_ad/geometry.hpp:33-68 | One turn of the loop reads the encoding at the index, or there is none there. |
| `Utf8.DecodingIsUnique` | include/pointcloud_ad/geometry.hpp:30-71 | Two lists of scalar values with the same encoding are equal. |
| `Utf8.IsValidUtf8` | include/pointcloud_ad/geometry.hpp:30-71 | Accepts exactly the concatenations of encoded Unicode scalar values. |
| `Codec.FindField` | src/backends/pcl/pcl_io_backend.cpp:29-37 | Finds a field of the name exactly when there is one. |
| `Codec.WriteRecord` | src/backends/pcl/pcl_io_backend.cpp:222-234 | The field writes of one point, mask before normal, leave exactly its record and no other byte changed. |
| `Codec.EncodeCloud` | src/backends/pcl/pcl_io_backend.cpp:192-239 | Divides by zero exactly when the width truncated to 32 bits is zero; otherwise the header with its 32-bit width and row step, and, when a row of that width fits, the records of all logical points end to end. |
| `Codec.EncodedBytes` | src/backends/pcl/pcl_io_backend.cpp:213-236 | The bytes of the k-th logical point: coordinates, normal if any, and a mask that is 1 where there is none, in records of 13 or 25 bytes. |
| `Codec.StorageDoesNotWrap` | src/backends/pcl/pcl_io_backend.cpp:105-114 | The storage check in 64-bit arithmetic decides as in unbounded arithmetic. |
| `Codec.ReadableIsExact` | src/backends/pcl/pcl_io_backend.cpp:55-62 | When the last point's fields lie inside the data, and only then, every read of every point does. |
| `Codec.InsideIsReadable` | src/backends/pcl/pcl_io_backend.cpp:55-62 | Fields inside a point are inside the data of every cloud that passes the checks. |
| `Codec.AcceptedUnreadable` | src/backends/pcl/pcl_io_backend.cpp:88-121 | The checks do not imply it: a lone normal_x that is not a float passes, and so does a mask behind the data. |
| `Codec.DecodeCloud` | src/backends/pcl/pcl_io_backend.cpp:88-190 | Field errors come first; then, if the reads are inside the data, it succeeds exactly when every point has a proper mask and no valid point is not finite, and otherwise reports what is wrong with the first point that fails; what it delivers always meets the surface contract. |
| `Codec.FieldsErrorMeans` | src/backends/pcl/pcl_io_backend.cpp:88-108 | Each complaint about the fields is made exactly when it is the first: no lone float x, y and z; a normal in part; a mask that is not a lone byte. |
| `Codec.DeliveredMeans` | src/backends/pcl/pcl_io_backend.cpp:123-190 | Every delivered point, normal and mask element is what the cloud holds at the point's place and the field's own offset; without a mask field a point is valid when it is finite, and a mask of ones is dropped. |
| `Codec.PlaceMeans` | src/backends/pcl/pcl_io_backend.cpp:43-50 | The place of a point is its row times the row step plus its column times the point step. |
| `Codec.DeliveredIsCanonical` | src/backends/pcl/pcl_io_backend.cpp:123-239 | Decoding a cloud that begins with the records of a surface delivers its logical points, normals and mask in row-major order, padding removed, a mask of ones if there was none, and a grid only above one row. |
| `Codec.Wrapped32` | src/backends/pcl/pcl_io_backend.cpp:208-211 | When a row does not fit 32 bits, the decoder refuses the storage or the cloud has fewer points than the surface. |
| `Codec.TripIsExactWhen` | src/backends/pcl/pcl_io_backend.cpp:208-211 | The outcome of saving and loading is the canonical surface if and only if a row's bytes fit the 32-bit fields. |
| `Codec.TripFails` | src/backends/pcl/pcl_io_backend.cpp:208-211 | The failures are real: 330382100 points wrap the row step and are refused, 2^32 points make the width zero, and of 2^32 + 1 points one is loaded. |
| `Codec.RoundTrip` | src/backends/pcl/pcl_io_backend.cpp:123-239 | Saving and loading any valid surface: a zero width divides by zero, a wrapped row is refused, and otherwise the canonical surface of all points, or of those a truncated width leaves, comes back. |
| `Codec.EncodeAgain` | src/backends/pcl/pcl_io_backend.cpp:192-239 | Encoding what was loaded gives the same cloud, byte for byte. |
| `Voxels.GatheredMeans` | src/preprocess/voxel_sampling.cpp:75-106 | The map holds exactly the nonempty voxels, in key order, each with its members in order and their sums. |
| `Voxels.AddPoint` | src/preprocess/voxel_sampling.cpp:94-105 | Adding a point to the ordered map grows its voxel or inserts it in place. |
| `Voxels.GatherPoint` | src/preprocess/voxel_sampling.cpp:75-109 | One point: skipped when masked out, refused when its key does not fit, otherwise added to its voxel. |
| `Voxels.Gather` | src/preprocess/voxel_sampling.cpp:75-109 | Succeeds exactly when every key of a kept point fits 64 bits. |
| `Voxels.Emit` | src/preprocess/voxel_sampling.cpp:115-147 | The output loop assigns centroids, normals, offsets and sources of the ordered voxels. |
| `Voxels.VoxelSample` | src/preprocess/voxel_sampling.cpp:64-156 | Fails exactly for wrong units, then a bad size, then a key out of range, then no valid point, each with its own error. |
| `Voxels.SourcesPartition` | src/preprocess/voxel_sampling.hpp:33-37 | A storage index is listed exactly when it is a valid logical point. |
| `Voxels.SourcesDistinct` | src/preprocess/voxel_sampling.hpp:33-37 | No index is listed twice. |
| `Voxels.VoxelSources` | src/preprocess/voxel_sampling.hpp:33-37 | A voxel's sources are not empty, ascend strictly, and lie in that voxel. |
| `Voxels.VoxelSlice` | src/preprocess/voxel_sampling.hpp:33-37 | The offsets rise strictly from 0 to the length of the list, and slice i is voxel i's sources. |
| `Voxels.VoxelsOrdered` | src/preprocess/voxel_sampling.cpp:16-24 | The voxels come in strict lexicographic key order. |
| `Voxels.CentroidStays` | src/preprocess/voxel_sampling.cpp:128-131 | In exact arithmetic a centroid has the key of its own voxel. |
| `Voxels.EmittedMeans` | src/preprocess/voxel_sampling.cpp:115-147 | A voxel is emitted as the mean of its points, with the direction of the sum of their normals, or none where that sum is zero. |
| `Voxels.SamplingTwice` | src/preprocess/voxel_sampling.cpp:64-156 | In exact arithmetic, sampling the output again gives the same points and normals and the identity mapping. |
| `Voxels.SampleAgain` | src/preprocess/voxel_sampling.cpp:64-156 | Two calls: when the first succeeds, so does the second on its output, with the same points and normals and the identity mapping. |

## Left out

Deliberately weaker than the code, or assumed:

- Executor.Step: does not model a failure to start a thread in the constructor, two callers at once, or destruction during a run; the header excludes the last two.
- Executor.Job: a callback is a terminating sequence of micro-steps on its own block's cell. The per-worker buffers of the two searches are not part of the step system: `TreeSearch.QueryScratch` has them, with proofs that a query's answer does not depend on what they held.
- ExecutorLiveness.RunCompletes: the bound is per spurious wakeup, so a run with endlessly many spurious wakeups is not bounded; a fair condition variable has finitely many.
- Fields.NearestNeighbors: the parallel loop fills logical slots and a second loop stores them at their storage indices, where the source writes storage slots directly.
- Nearest.TiledNearest: the threads of a block run one after the other between two barriers; that the barriers separate loading from scanning is taken as given.
- SpatialIndexBuild.NthElement: contains one selection algorithm; everything proved uses only its contract, which leaves the order inside each side open.
- SpatialIndexBuild.Measure: bounds and extents are exact reals, where the source compares single-precision extents in double precision.
- SpatialIndexWalk.IndexedNearest: assumes separately rounded operations; contraction into fused multiply-add by the device compiler is not covered.
- Clustering.EuclideanCluster: labels are unbounded integers; the source counts them in 32 bits.
- Fields.NearestTo: the nearest point the comparison's search reports is one fixed function of the query; the source does no tie recheck there, so which of several equally near points is reported is the library's choice, and independence of its tie order is not claimed for this stage.
- Statistics.DoublePercentile: stops at 2^48 values, where the double product may begin to differ.
- Detection.MeasureRegion: the centroid, the bounding box and the area estimate, which the verdict does not use, are not modelled.
- Detection.FindClusters: one method for the class of bumps, the class of dents and missing material.
- Registration.CreateContext: the checks of the parameters are a given boolean, and back-end selection is fixed to the CPU.
- Registration.RegistrationContext.Align: the checks of a request are a given boolean; a moved-from context is not modelled; the answer is the solution from which the metrics are computed.
- RegistrationMetrics.Measure: over exact reals; overflow, which could make a number infinite and have it refused, is not covered.
- RigidMotion.DeltaDeterminant: rounding of sine and cosine is not modelled; only the law that their squares add up to one is used.
- Codec.DecodeCloud: says nothing of clouds whose reads leave the data or dereference a missing normal field, where the source has no defined behaviour; `Codec.ReadableIsExact` says which these are.
- Codec.EncodeCloud: the byte count of the whole cloud is not wrapped to 64 bits; a surface that large does not fit into memory.
- GicpInformation.IsInverse: stands for the library's 3x3 inverse over exact reals.
- Utf8.ReadScalar: masks and shifts are written as remainders and multiples of powers of two.
- Voxels.CentroidStays: exact arithmetic; the final narrowing to single precision can move a centroid across a voxel face.

Not modelled at all:

- Signed zeros, NaN and bit-level IEEE behaviour.
- The resident GPU registration path, the device kernels other than the two searches, and CPU feature detection.
- PCL, FLANN and Eigen internals, PCA normals, boundary detection, the covariance eigensolver and surface normalization.
- Configuration validation, the comparisons of the registration gate, enum and string maps, diagnostics, timestamps and stage timings.
- PLY and PCD files, JSON output, SHA-256, the command line and the build.
