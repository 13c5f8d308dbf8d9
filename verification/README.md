# Verified model of lenke's counting, selection and sync algorithms

lenke is an in-memory property graph with two query surfaces, GQL and Gremlin, and a sync layer that
replicates writes. Its fast paths answer by arithmetic what a query asks for by enumeration, and its
benchmarks and probes hold each fast path next to the slow form it must agree with. This project models
those algorithms in Dafny and proves the agreement, for every input.

`dafny verify dfyconfig.toml` checks everything.

**Selection.** `Percentile` is the in-place quickselect behind percentiles - its scans test no bound - and the folds
built on it, proved equal to sorting and indexing (`OrderStatistics` says what a rank is), with the exact list length
past which the shifted middle makes the selection wrong. `PercentileMeaning` says of every column and fraction what
the answer is, from ranks alone.

**Counting.** `Multigraph` is one model of labelled multigraphs: edges with identity, patterns of legs with
directions, types, labels and gates, and the set of matches of a pattern, which `Paths` proves to be the paths along
its legs. Every counter is proved against the size of that set: three sweeps with different accumulators
(`WalkCount`), the engine's own dense sweep with slots, growing arrays, gates, label elision and reading from either
end (`ChainSweep`), undirected degree sums and the engine's undirected count (`DegreeCounts`, `UndirectedHop`), degree
products (`DegreeProducts`), and one question asked on both surfaces (`CrossSurface`).

**Arithmetic of the fixtures.** `Lcg` proves the full period of the congruential generators and the spread of their
low bits; `Strided` the degrees and self-loops of the strided graphs, by number theory.

**The service map.** `FleetMachine` says what each draw of a fleet's generation is for, as a state machine over the
draws of `Xorshift`, and so defines the fleet of a seed; `FleetGenerator` is the generator itself, proved to make that
fleet. `FleetShape` and `FleetSeeds` prove every fleet layered (`Topology`) and say exactly for which seeds generation
throws, or makes four calls; `FleetScript` says, of the fleet of every seed, what each draw by its number decides.
`XorshiftPeriod` proves that the draws have full period, by computing large powers of the step (`StepPowers`) as
polynomials over the bits (`StepAlgebra`). `ServiceBatches` slices a fleet per cluster, `SnapshotTimer` decides when
to save.

**Exactly-once writes.** `Dedup` is the server's registry of applied writes, which holds the sessions touched last,
`WindowHistory` what a session's window remembers after any history, `ExactlyOnce` the client's and the host's side of
a write, `ExactlyOnceRuns` every run of them over a network that loses, repeats and reorders messages,
`ExactlyOnceLimits` where the guarantee ends, and `RefusedWrites` what may still become of a refused write.

**Smaller pieces.** `Census` is the consuming scanner of the character census, proved to cut every text into the
tokens of `TokenShapes`, the only such cut, `AdjacencyKeys` the graph's adjacency index and its flattened layouts.
`Collections`, `Divisors`, `Names`, `Options`, `PowerOfTwo`, `Runs`, `Vectors` and `Adjacency` are shared.

## How the source is read

- A vertex is its insertion index, an edge its position in the edge list. A label or an inline predicate is the
  set of vertices it keeps, so a gate is any element-local predicate. Counters are naturals: counts below 2^53
  are exact in the original's floats. Interpolation and draws are exact reals.
- Numbers are reals with a separate negative zero (the comparator sort leaves it tied with zero, ECMA-262 2024
  section 23.1.3.30; the typed-array sort puts it first, section 23.2.3.29). `Math.imul` is ECMA-262 section
  21.3.2.19. An xorshift register is a word of 32 bits.
- Messages ever sent form a set that only grows, and a delivery picks any of them at any time: losing, repeating
  and reordering are all covered. Whether running a write succeeds is an input of each delivery.
- Where a call fails in the original, the model returns `None`, `WindowFull` or a refused answer; where a loop never
  ends, the model says so in an output (`ends`).

## Where the code and its documentation part

- `undirectedHopCount` is documented as exact. It counts an edge twice when the hop names no type and the edge
  carries two, and when a type is repeated in the alternation. `ExactWhenNothingIsCountedTwice` gives the exact
  condition.
- The second strided builder, under the loop-shifting option, omits the last remainder: `BuildersAgree` says
  exactly for which sizes this shows.
- `byIndexed` and `byField` count walks inside the start bucket, `byMap` all walks:
  `SweepsAgreeExactlyWhenClosed`.
- A fleet is documented as one to three own-cluster calls a service. The generation throws exactly when a callee,
  cluster or target draw finds the register all ones (`ThrowsExactlyWhen`; `ThrowingSeed` is such a seed), and some
  service makes four calls exactly when a fan-out draw does (`FourExactlyWhen`, `FourCallSeed`). `SafeSeed` is the test
  a caller can make on the seed, and the default seed passes it (`DefaultSeedIsSafe`).
- `selectNth` is documented to leave the k-th smallest at k. It does for every list of a length exactly when that is at
  most 2^30 + 1 (`SelectsRightExactlyWhen`): past it the middle of a window can be no cell.
- The registry is documented as exactly-once. Every run in which at most k sessions write is, exactly when k is within
  the cap (`CapIsExact`). A refused write may still be applied later, exactly while it is not drained and its window has
  room or can get room before the write is drained (`MayApplyExactlyWhen`; `RefusedForGood` is a state where it cannot).
  That is said of continuations that keep the session: a dropped one starts afresh, and a copy of any write is taken.

## Model

| member | source | states |
|---|---|---|
| `Percentile.MedianOfThree` | packages/native/percentile-arm-probe.ts:127-141 | one of the three, with at least two of them on each side of it |
| `Percentile.StableSortIsStable` | packages/native/percentile-arm-probe.ts:47-67 | the comparator sort: ascending by value, a permutation, and equal values - a negative and a positive zero among them - in their original order |
| `Percentile.MiddleExactlyWhen` | packages/native/percentile-arm-probe.ts:154 | the shifted middle lies in the window exactly when the sum of its ends fits a signed 32-bit integer; past that it is negative |
| `Percentile.PivotIsInWindow` | packages/native/percentile-arm-probe.ts:154-155 | the pivot is a value of the window, and there is one whenever the sum of its ends does not wrap |
| `Percentile.ScanUp` | packages/native/percentile-arm-probe.ts:160-162 | the upward scan tests no bound: it stops at the first cell not below the pivot, or past the end, where there is none |
| `Percentile.ScanDown` | packages/native/percentile-arm-probe.ts:164-166 | the downward scan likewise |
| `Percentile.HoarePass` | packages/native/percentile-arm-probe.ts:155-176 | one pass, whatever the pivot, is the exchange of the cells its scans stop at; with a pivot in the window it permutes only the window and leaves it split around the pivot |
| `Percentile.PassPermutes` | packages/native/percentile-arm-probe.ts:155-176 | with any pivot or none, a pass rearranges its window and nothing else |
| `Percentile.StuckRepeats` | packages/native/percentile-arm-probe.ts:150-186 | a pass that does not shrink the window has changed nothing, so the same round comes again for ever |
| `Percentile.PassCuts` | packages/native/percentile-arm-probe.ts:155-184 | after a pass every place between the two cursors, and each end of the window, separates smaller from larger over the whole array |
| `Percentile.SelectNarrows` | packages/native/percentile-arm-probe.ts:149-189 | every round keeps the sought place in a smaller window that is separated from the rest, and in the end the place is the window |
| `Percentile.SelectNth` | packages/native/percentile-arm-probe.ts:149-189 | for every list: whether the search ends, and then the first n cells permuted and no other touched; it ends up to 2^31 numbers; up to 2^30 + 1 it separates the cells around place k and returns what the stable sort has there |
| `Percentile.SelectsRightExactlyWhen` | packages/native/percentile-arm-probe.ts:149-189 | for every length an array can have: every list and every place is answered as the stable sort answers exactly when the length is at most 2^30 + 1 |
| `Percentile.SelectNthFirstPivot` | packages/native/percentile-arm-probe.ts:227-265 | the first-element pivot meets the same contract: the choice of pivot cannot change the answer |
| `Percentile.SelectedIsSorted` | packages/gql/src/executor/scalars.ts:575-618 | the cell that separates the array is the k-th of the sorted data, and the very same number unless a negative zero is among them |
| `Percentile.TailMinimumIsNext` | packages/gql/src/executor/scalars.ts:657-668 | once place k is separated, the least of the cells after it is the next order statistic |
| `Percentile.DiscreteRankIsLeast` | packages/native/percentile-arm-probe.ts:220 | the index is the least rank whose share of the data reaches the fraction |
| `Percentile.Position` | packages/native/percentile-arm-probe.ts:199-202 | the two neighbouring indices are in range, one apart at most, and enclose the fractional rank |
| `Percentile.Gather` | packages/native/percentile-arm-probe.ts:74-93 | the buffer holds exactly the finite values in order, and the flag says whether a negative zero is among them |
| `Percentile.ArmC` | packages/native/percentile-arm-probe.ts:192-221 | for every list and fraction: up to 2^31 numbers it ends; up to 2^30 + 1, discrete and interpolated, the selection answers the value the sort answers - the same number when there is no negative zero - and null on no data |
| `Percentile.ArmB` | packages/native/percentile-arm-probe.ts:96-117 | the typed-array twin answers the value the reference answers, and the same number when every negative zero comes first |
| `Percentile.TypedSortSorts` | packages/native/percentile-arm-probe.ts:96-117 | the typed sort: the same numbers, ascending, every negative zero before every positive one |
| `Percentile.SortsAgree` | packages/gql/src/executor/scalars.ts:560-574 | the typed sort equals the stable sort exactly when every negative zero already precedes every positive one |
| `Percentile.TypedSortAnswers` | packages/native/percentile-arm-probe.ts:96-117 | the twin always answers the same value, and the same number at every fraction exactly when the zeros are in that order |
| `PercentileMeaning.KeptInOrder` | packages/native/percentile-arm-probe.ts:47-57 | the numbers of a column are its finite cells, each at the place the finite cells before it leave |
| `PercentileMeaning.BetweenRanks` | packages/native/percentile-arm-probe.ts:47-67 | an interpolated percentile at a fraction k / (n - 1) is the value of rank k, and from there to rank k + 1 it moves as the fraction does: halfway it is the mean |
| `PercentileMeaning.NeverFalls` | packages/native/percentile-arm-probe.ts:47-67 | and it never falls as the fraction grows |
| `PercentileMeaning.DiscreteIsLeastRank` | packages/native/percentile-arm-probe.ts:47-67 | a discrete percentile is the value of the least rank whose share reaches the fraction |
| `OrderStatistics.OrderStatisticIsUnique` | packages/native/percentile-arm-probe.ts:143-148 | at most one value has rank k |
| `OrderStatistics.CountsOfPermutation` | packages/native/percentile-arm-probe.ts:143-148 | rank counts do not depend on the order of the data |
| `Multigraph.WalksAreWalks` | packages/native/walkcount-probe.ts:107-139 | the enumeration of walks is exactly the edge sequences whose every step is crossed from where the last one landed; parallel edges differ |
| `Multigraph.WalksCount` | packages/native/walkcount-probe.ts:107-139 | the number of walks from a vertex is what pulling counts back over the legs gives |
| `Multigraph.MatchesAreMatches` | packages/gql/src/executor/shortcuts.ts:4876-5045 | the matches of a chain pattern are the kept starts paired with their walks |
| `Paths.MatchesArePaths` | packages/gql/src/executor/shortcuts.ts:4876-5045 | a match is a start that fits and the edges of a path: each along its leg's arrow, of one of its types, onto a vertex that fits |
| `Multigraph.CountIsMatches` | packages/gql/src/executor/shortcuts.ts:4876-5045 | the counting function counts the enumerated matches |
| `Multigraph.Conservation` | packages/gql/src/executor/shortcuts.ts:5210-5285 | sending way counts over a leg and weighing them equals weighing the counts pulled back over it |
| `Multigraph.Cut` | packages/gql/src/executor/shortcuts.ts:5386-5568 | a chain cut anywhere counts as ways in times completions out |
| `Multigraph.SweepCounts` | packages/native/walkcount-probe.ts:107-139 | the sum of the ways carried to the end is the number of matches |
| `Multigraph.WaysCountMatches` | packages/native/walkcount-probe.ts:107-139 | after h legs the ways held at a vertex are the matches that end there |
| `Multigraph.ReverseAt` | packages/native/chain-depth-probe.ts:77-90 | the reversed pattern, position by position: the far end first, each arrow flipped |
| `Multigraph.ReverseCounts` | packages/native/chain-depth-probe.ts:47-90 | every pattern, whatever its arrows, types, labels and gates, has as many matches as its reversed spelling |
| `Adjacency.SentByAdjacency` | packages/native/walkcount-probe.ts:107-139 | a vertex's bucket of edges carries exactly what the edge list carries from it |
| `WalkCount.RoundsByMap` | packages/native/walkcount-probe.ts:107-139 | after h rounds the map holds at each vertex the ways there from the bucket |
| `WalkCount.ByMap` | packages/native/walkcount-probe.ts:107-139 | the map sweep returns the number of enumerated walks |
| `WalkCount.ByIndexed` | packages/native/walkcount-probe.ts:147-198 | the double-buffered sweep returns the number of walks that stay inside the bucket |
| `WalkCount.ByField` | packages/native/walkcount-probe.ts:208-249 | the scratch-field sweep returns the same, whatever an earlier run left in the fields |
| `WalkCount.SweepsAgreeExactlyWhenClosed` | packages/native/walkcount-probe.ts:107-249 | the sweeps agree at every number of hops exactly when no edge of the type leaves the bucket |
| `ChainSweep.EffectiveKeeps` | packages/gql/src/executor/shortcuts.ts:3517-3525 | dropping a label whose bucket is the whole graph keeps the same vertices |
| `ChainSweep.SweepState.Intern` | packages/gql/src/executor/shortcuts.ts:5236-5256 | a slot per vertex, handed out once; growing the arrays changes no way count |
| `ChainSweep.SweepState.Arrive` | packages/gql/src/executor/shortcuts.ts:5234-5281 | an arrival adds its ways to a vertex that passes the gate and to no other |
| `ChainSweep.SweepState.OneDirection` | packages/gql/src/executor/shortcuts.ts:5210-5285 | one pass adds to every vertex what its frontier sends over the edges of that direction, a loop of an undirected leg once |
| `ChainSweep.SweepState.RememberedDirection` | packages/gql/src/executor/shortcuts.ts:5319-5377 | over legs in one direction, of the same types, with no gate and no narrowing label, a pass over remembered far slots lands what the resolving pass lands, and what it remembers stays right while slots and arrays grow |
| `ChainSweep.SweepState.RunLeg` | packages/gql/src/executor/shortcuts.ts:5386-5568 | the passes of a leg turn the held way counts into the counts one leg on |
| `ChainSweep.SweepState.Seed` | packages/gql/src/executor/shortcuts.ts:5414-5440 | the seeding holds one way at each start that passes label and gate |
| `ChainSweep.Side` | packages/gql/src/executor/shortcuts.ts:3409-3445 | a directed degree with a far label is the number of fitting edges in the vertex's bucket |
| `ChainSweep.UndirectedSide` | packages/gql/src/executor/shortcuts.ts:3447-3470 | an undirected degree counts both buckets and takes fitting loops off once |
| `ChainSweep.LastDegree` | packages/gql/src/executor/shortcuts.ts:5535-5568 | the degree read at the last position is the number of ways to finish there |
| `ChainSweep.SweepChain` | packages/gql/src/executor/shortcuts.ts:5386-5568 | the dense sweep, remembering far slots or not, gated or not at its end, counts the matches of the chain |
| `ChainSweep.BuildFor` | packages/gql/src/executor/shortcuts.ts:4876-5045 | the legs read from the far end are the reversed pattern |
| `ChainSweep.LongChainCount` | packages/gql/src/executor/shortcuts.ts:4876-5045 | whichever end it is read from, and with or without an index seek, the count is the number of matches |
| `DegreeCounts.UndirectedRows` | packages/native/undirected-count-probe.ts:123-161 | an undirected hop has one row per orientation of an edge that fits, a self-loop one row |
| `DegreeCounts.DegreeSum` | packages/native/undirected-count-probe.ts:137-161 | the degree sum over a filtered bucket, its loop correction skipped when there are no loops, counts those rows |
| `DegreeCounts.Handshake` | packages/native/bench.ts:782-783 | with no filter the undirected count of a type is twice its edges less its loops |
| `DegreeCounts.GremlinCountsLoopsTwice` | packages/gremlin/both-filter-probe.ts:8-15 | out plus in exceeds the undirected count by exactly the loops on passing vertices |
| `UndirectedHop.UndirectedHopCount` | packages/gql/src/executor/shortcuts.ts:159-212 | every route of the engine's undirected count returns the fitting orientations of each edge, each times the number of buckets it is visited in |
| `UndirectedHop.ExactWhenNothingIsCountedTwice` | packages/gql/src/executor/shortcuts.ts:159-212 | that answer is never too small, and is the number of matches exactly when no fitting edge is visited in two buckets |
| `UndirectedHop.ExactForDistinctTypes` | packages/gql/src/executor/shortcuts.ts:165-183 | with a list of distinct types it is always the number of matches |
| `UndirectedHop.UntypedCountsTwice` | packages/gql/src/executor/shortcuts.ts:180-190 | it answers 4 for 2 when an edge with two types is asked for without a type |
| `UndirectedHop.RepeatedTypeCountsTwice` | packages/gql/src/executor/shortcuts.ts:165-176 | it answers 4 for 2 when a type is repeated in the alternation |
| `DegreeProducts.TwoHopProduct` | packages/gql/working-set-probe.ts:169-185 | the two-hop count is the sum over middles of in-degree times out-degree |
| `DegreeProducts.ThreeHopProduct` | packages/native/bench.ts:1036-1040 | the three-hop count is the sum over middle edges of in-degree times out-degree |
| `DegreeProducts.DegreeReads` | packages/gql/working-set-probe.ts:169-185 | reading the out-degree of every far end sums to the two-hop count |
| `DegreeProducts.InDegreeTally` | packages/gql/working-set-probe.ts:146-165 | the tally adds to every vertex its in-degree |
| `DegreeProducts.UniformChain` | packages/native/walkcount-probe.ts:97 | when every out-degree is d the h-hop count is N times d to the h, however the in-degrees fall |
| `DegreeProducts.ChainSpelling` | packages/native/chain-depth-probe.ts:47-59 | the forward chain built hop by hop |
| `DegreeProducts.MixedSpelling` | packages/native/chain-depth-probe.ts:65-73 | the alternating chain; over an even number of hops it counts the same with its label at the far end |
| `DegreeProducts.ReversedSpelling` | packages/native/chain-depth-probe.ts:77-90 | the reversed chain is the reversal of the forward one, so on every graph they count the same |
| `Lcg.StepIsAffine` | packages/gql/working-set-probe.ts:36-44 | the 32-bit multiply, shift and mask come to (a s + 12345) modulo 2^31, and modulo 2^32 without the mask |
| `Lcg.Generator.Next` | packages/gql/working-set-probe.ts:36-44 | a draw is the next state |
| `Lcg.Draws.NextInt` | packages/native/minmax-coltype-probe.ts:31-36 | a draw advances the state modulo 2^32 and is its remainder by the bound |
| `Lcg.PeriodOfLowBits` | packages/gql/working-set-probe.ts:36-44 | from every seed the low m bits return after exactly the multiples of 2^m draws; at m = w that is full period |
| `Lcg.LowBitsAgree` | packages/native/minmax-coltype-probe.ts:30-46 | two draws agree in their low m bits exactly when they are a multiple of 2^m draws apart |
| `Lcg.EveryResidueOnce` | packages/native/minmax-coltype-probe.ts:30-46 | any 2^m consecutive draws take every m-bit residue, each once |
| `Lcg.DictionaryColumn` | packages/native/minmax-coltype-probe.ts:38-46 | any eight consecutive rows carry all eight dictionary values; neighbours differ in parity |
| `Lcg.FirstDraw` | packages/native/minmax-coltype-probe.ts:30-46 | the first drawn value of the column, 263574 |
| `Strided.DividesProduct` | packages/native/route-cost-probe.ts:47-65 | n divides k a exactly when n / gcd(a, n) divides k |
| `Strided.SelfLoops` | packages/native/route-cost-probe.ts:47-65 | the strided fixture has exactly degree times gcd(b - a, n) self-loops |
| `Strided.DegreesExactlyWhenCoprime` | packages/native/route-cost-probe.ts:47-65 | every out-degree is the nominal one exactly when the stride and n are coprime |
| `Strided.StridedChain` | packages/native/hopcount-degree-ts-probe.ts:18-20 | under a coprime stride the h-hop count is n times degree to the h |
| `Strided.Fresh` | packages/native/route-cost-probe.ts:31-65 | the first builder makes the fixture; with the shift it has no self-loop for n >= 2 |
| `Strided.Native` | packages/native/route-cost-probe.ts:449-464 | the second builder names only vertices that exist exactly when there is no shift or n does not divide 96810, and then makes the first builder's edges |
| `Strided.EdgesDiffer` | packages/native/route-cost-probe.ts:449-464 | their k-th edges differ exactly when shifting a loop on the last vertex, where the second names no vertex |
| `Strided.BuildersAgree` | packages/native/route-cost-probe.ts:47-65 | the two builders agree exactly when there is no shift or n does not divide 96810 |
| `Strided.DefaultFixtureLoops` | packages/gql/src/executor/shortcuts.ts:155-157 | the fixture of 200000 vertices has 50 self-loops |
| `CrossSurface.WhereIsAll` | packages/native/cross-surface-arity-probe.ts:88-98 | the conjunction is true exactly when every comparison holds; a missing key makes it unknown and the row is dropped |
| `CrossSurface.RunHas` | packages/native/cross-surface-arity-probe.ts:100-108 | the filter steps keep a traverser exactly when every key is present and passes |
| `CrossSurface.RunConcat` | packages/native/cross-surface-arity-probe.ts:100-108 | a pipeline treats its traversers one by one |
| `CrossSurface.SurfacesAgree` | packages/native/cross-surface-arity-probe.ts:88-108 | for any lists of keys to filter by on either side, with or without the hop, on every graph, both surfaces keep the same rows in order and count the same |
| `CrossSurface.CountsMatches` | packages/native/cross-surface-arity-probe.ts:88-108 | on every graph and for every cell both counts are the number of matches of a pattern: from the vertices of label P that have every key before the hop, above the threshold, over one edge of type E along its arrow to those that have every key after it |
| `CrossSurface.CellAnswers` | packages/native/cross-surface-arity-probe.ts:170-176 | with filters that always hold, a node cell answers the number of vertices and a hop cell the number of edges, on both surfaces, however the edges are spread |
| `CrossSurface.Build` | packages/native/cross-surface-arity-probe.ts:117-140 | on the probe's own graph, of any size and degree, every node cell answers N and every hop cell N times the degree |
| `Xorshift.StepIsBijection` | examples/service-map/datagen.ts:82-84 | the xorshift step has an inverse on both sides |
| `Xorshift.RunStaysNonZero` | examples/service-map/datagen.ts:80-85 | a run from a nonzero seed never reaches zero |
| `Xorshift.RunsNeverMerge` | examples/service-map/datagen.ts:80-85 | runs from different seeds never coincide after the same number of draws |
| `Xorshift.AfterBack` | examples/service-map/datagen.ts:80-85 | a register taken back n draws and run forward n draws is itself |
| `Xorshift.UnitRange` | examples/service-map/datagen.ts:86 | a draw lies between 0 and 1 and is 1 for the all-ones state only |
| `StepAlgebra.GoIsLinear` | examples/service-map/datagen.ts:82-84 | the step is linear over the bits |
| `StepAlgebra.ActTwice` | examples/service-map/datagen.ts:82-84 | a polynomial in the step applied twice is the polynomial in the squared step |
| `StepPowers.Twice` | examples/service-map/datagen.ts:82-84 | twice as many steps from the all-ones register are the reduced square of the polynomial |
| `XorshiftPeriod.FullPeriod` | examples/service-map/datagen.ts:80-85 | from every seed but zero a run is back at its seed exactly after the multiples of 2^32 - 1 draws |
| `XorshiftPeriod.ReachesAll` | examples/service-map/datagen.ts:80-85 | and passes every other register but zero |
| `XorshiftPeriod.DefaultSeedAfter` | examples/service-map/datagen.ts:79 | the default seed is reached from the all-ones register by 2006680153 draws |
| `FleetMachine.PickIsTop` | examples/service-map/datagen.ts:88 | a scaled draw falls past the end of its list exactly when it is 1 |
| `FleetMachine.PickIsPlace` | examples/service-map/datagen.ts:88 | a draw picks place i exactly when the draw times the length is at least i and less than i + 1 |
| `FleetMachine.FanOutIsTop` | examples/service-map/datagen.ts:125 | a fan-out is one to three, and four exactly when its draw is 1 |
| `FleetMachine.HaltsInTime` | examples/service-map/datagen.ts:79-149 | every run of draws ends in a finished fleet or an exception within 240 nouns and thirteen draws a calling service, and stays so |
| `FleetShape.AlwaysOk` | examples/service-map/datagen.ts:94-149 | after every number of draws: each service in its slot and named from the nouns, each call one tier down, the calls of every service within its bounds |
| `FleetScript.NamesSaid` | examples/service-map/datagen.ts:94-111 | in the fleet of every seed, service i of a tier of a cluster has the id that spells so, and the noun at the place its own draw falls on |
| `FleetScript.CallsSaid` | examples/service-map/datagen.ts:113-149 | the calls are those the later draws say, each by its number: the fan-out, the place of each callee one tier down, http from edge, grpc from api, sql into data, the nearest whole latency, and below 0.05 a call over a queue to the cluster and the place two draws fall on |
| `Names.DecimalSpells` | examples/service-map/datagen.ts:99-105 | the number in an id is spelled in decimal digits, without leading zeros |
| `FleetGenerator.OneService` | examples/service-map/datagen.ts:98-108 | the next draw names the next service, with the id of its slot |
| `FleetGenerator.Roll` | examples/service-map/datagen.ts:91-111 | the services are those of the first 240 draws: clusters, tiers and numbers in order, and each bucket exactly its slice of them |
| `FleetGenerator.OneCall` | examples/service-map/datagen.ts:127-135 | two draws make the call the machine makes, or it throws exactly when the machine does |
| `FleetGenerator.PickOther` | examples/service-map/datagen.ts:139 | the cluster the draw picks of those that are not the own one, or an exception |
| `FleetGenerator.CrossTo` | examples/service-map/datagen.ts:140-147 | the target and the latency the draws pick in the other cluster, over a queue |
| `FleetGenerator.OwnCalls` | examples/service-map/datagen.ts:125-136 | the fan-out draw and two draws a call, as the machine makes them: the calls of one service within its cluster |
| `FleetGenerator.Across` | examples/service-map/datagen.ts:138-148 | a call to a different cluster when the coin falls below 0.05, as the machine makes it |
| `FleetGenerator.CallsOf` | examples/service-map/datagen.ts:113-148 | all calls of one service, or of the data tier none, added in order |
| `FleetGenerator.Generate` | examples/service-map/datagen.ts:79-149 | for every seed the generator returns the fleet of that seed, a function of the nouns and the seed alone, or throws where there is none: the same seed, the same fleet |
| `FleetSeeds.FleetIsLayered` | examples/service-map/datagen.ts:94-149 | the fleet of every seed: unique service and call ids, endpoints that exist, every call exactly one tier down, one to four own calls and at most one across for each service above the data tier |
| `FleetSeeds.ThrowsExactlyWhen` | examples/service-map/datagen.ts:88 | a seed has no fleet exactly when, within the run's draws, one for a callee, a cluster or a target finds the register all ones |
| `FleetSeeds.FourExactlyWhen` | examples/service-map/datagen.ts:125 | in the fleet of a seed some service makes four calls within its cluster exactly when a fan-out draw finds the register all ones |
| `FleetSeeds.SafeSeed` | examples/service-map/datagen.ts:5-7 | a seed none of whose first states is all ones has a fleet, with one to three own calls for each service above the data tier |
| `FleetSeeds.ZeroSeedIsSafe` | examples/service-map/datagen.ts:79-89 | a zero seed never draws 1 |
| `FleetSeeds.ThrowingSeed` | examples/service-map/datagen.ts:88 | a seed with no fleet, the all-ones register taken back to the first callee |
| `FleetSeeds.FourCallSeed` | examples/service-map/datagen.ts:125 | a seed whose fleet is finished and has a service with four calls within its cluster |
| `FleetSeeds.DefaultSeedIsSafe` | examples/service-map/datagen.ts:79 | the default seed has a fleet, with one to three own calls for each service above the data tier |
| `Topology.PathsAreShort` | examples/service-map/datagen.ts:5-7 | no path of a layered fleet is longer than three calls, and none returns to its start |
| `ServiceBatches.PrefixIsCluster` | examples/service-map/worker.ts:119 | the test on the spelling of an id is the test on the cluster |
| `ServiceBatches.GeneratedIsMapped` | examples/service-map/datagen.ts:99-105 | every generated fleet spells its ids so |
| `ServiceBatches.BatchIsClosed` | examples/service-map/worker.ts:86-133 | both ends of every call in a batch are in the batch |
| `ServiceBatches.StoreStaysClosed` | examples/service-map/worker.ts:86-133 | after every load, of whatever clusters, no call dangles |
| `ServiceBatches.LoadedSoFar` | examples/service-map/worker.ts:86-133 | clusters loaded once each, in any order, hold exactly their services and the calls inside each, nothing twice |
| `ServiceBatches.LoadingAllYieldsTheFleet` | examples/service-map/worker.ts:86-133 | all clusters in any order yield the whole fleet minus exactly the calls between clusters |
| `SnapshotTimer.Worker.OnTimer` | examples/service-map/worker.ts:175-180 | the timer saves exactly when the pair differs, and leaves it saved |
| `SnapshotTimer.DiffersExactlyWhenMoved` | examples/service-map/worker.ts:154-180 | over every run the pair differs from the saved one exactly when something moved since: no movement is missed, a stuck queue is not saved again |
| `SnapshotTimer.Counted` | examples/service-map/worker.ts:154-180 | the version counts enqueued writes and loads; the queue is what was enqueued less what settled, exactly when at no time more had settled than there was |
| `Dedup.DedupRegistry.Touch` | packages/sync/src/dedup.ts:145-167 | a touched session becomes the newest, with a window; of all sessions ever touched, the cap's number of most recently touched ones are held, in the order of their last touch |
| `Dedup.TouchHoldsNewest` | packages/sync/src/dedup.ts:144-167 | if the sessions held are the most recently touched, ordered by last touch, a touch keeps them so |
| `Dedup.DedupRegistry.Seen` | packages/sync/src/dedup.ts:172-187 | seen: at or below the low-water mark, or retained |
| `Dedup.DedupRegistry.Admit` | packages/sync/src/dedup.ts:189-201 | refused exactly when a numbered write finds its window full; nothing is forgotten |
| `Dedup.DedupRegistry.Mark` | packages/sync/src/dedup.ts:203-228 | the session is touched and the write is remembered; a legacy window drops its oldest id past the capacity |
| `Dedup.DedupRegistry.Drain` | packages/sync/src/dedup.ts:230-245 | exactly the newly acknowledged span is forgotten, and a mark that would go back is ignored |
| `Dedup.TouchKeeps` | packages/sync/src/dedup.ts:145-167 | touching a session changes no other window, drops one only past the cap, and never the one touched |
| `WindowHistory.NumberSeenExactlyWhen` | packages/sync/src/dedup.ts:172-187 | after every history, a numbered write is seen exactly when it was marked, or it or a later one was acknowledged |
| `WindowHistory.NumberHeldExactlyWhen` | packages/sync/src/dedup.ts:203-245 | and takes up room exactly from its mark to its acknowledgement |
| `WindowHistory.LegacySeenExactlyWhen` | packages/sync/src/dedup.ts:203-221 | a legacy id is seen exactly while fewer than capacity other new ids have been marked since it was new |
| `ExactlyOnce.AdvancedIsValid` | packages/sync/src/client.ts:530-540 | the acknowledged number becomes the highest up to which every write has settled |
| `ExactlyOnce.SyncClient.Mutate` | packages/sync/src/client.ts:714-729 | a new write takes the next number and carries what has settled |
| `ExactlyOnce.SyncClient.Receive` | packages/sync/src/client.ts:967-990 | an answer settles its pending write once; any other answer changes nothing |
| `ExactlyOnce.HostMutate` | packages/sync/src/host.ts:567-627 | drain, re-answer a repeat without running it, refuse when full, else run and remember |
| `ExactlyOnce.HostedWindow` | packages/sync/src/host.ts:567-627 | a write runs exactly when it succeeds, its drained window does not remember it and has room; then that window gains it and nothing else |
| `ExactlyOnce.HostedOthers` | packages/sync/src/host.ts:567-627 | no other session's window changes, except that a session may be dropped |
| `ExactlyOnceRuns.RunIsOk` | packages/sync/src/dedup.ts:3-31 | every step of every run keeps the protocol's invariant, under loss, repetition and reordering, for any number of clients and hosts |
| `ExactlyOnceRuns.ExactlyOnceInEveryRun` | packages/sync/src/dedup.ts:3-31 | in every run a session that is never dropped has no write applied twice, and every write its client saw succeed applied exactly once |
| `ExactlyOnceRuns.PromiseKept` | packages/sync/src/client.ts:967-990 | an ok that settles a pending write means it was applied |
| `ExactlyOnceLimits.NothingIsDropped` | packages/sync/src/dedup.ts:111-117 | while no more sessions write than the cap, none is ever dropped |
| `ExactlyOnceLimits.AppliesTwice` | packages/sync/src/dedup.ts:111-117 | for every cap and capacity, a run of one session more than the cap that applies a write twice |
| `ExactlyOnceLimits.CapIsExact` | packages/sync/src/dedup.ts:111-117 | every run in which at most k sessions write applies no write twice, exactly when k is within the cap |
| `RefusedWrites.RefusedYetApplied` | packages/sync/src/client.ts:967-990 | a run in which a write is refused to its client and applied later, from another copy |
| `RefusedWrites.AppliesExactlyWhen` | packages/sync/src/host.ts:589-627 | exactly when a delivery applies its write |
| `RefusedWrites.RefusalBecomesFinal` | packages/sync/src/dedup.ts:182-186 | once the acknowledgement has drained a refused write, no continuation that keeps its session applies it |
| `RefusedWrites.MayApplyExactlyWhen` | packages/sync/src/dedup.ts:182-201 | a sent write not yet applied is applied in some continuation that keeps its session exactly when it is not drained and its window has room, or some retained write can be drained first: by a message already sent, or because a write between the two is still pending |
| `RefusedWrites.RefusedForGood` | packages/sync/src/dedup.ts:189-201 | a reachable state in which a write is refused for space, not drained, and applied in no continuation that keeps its session |
| `ExactlyOnceLimits.NeverFullWithinSpan` | packages/sync/src/dedup.ts:33-42 | a client whose unsettled span fits the capacity is never refused for space |
| `ExactlyOnceLimits.ReplayRecovers` | packages/sync/src/client.ts:1065-1076 | from every reachable state, re-sending a pending write and delivering it and its answer settles it, as succeeded exactly when it was applied before or has room |
| `Census.TakeCensus` | packages/native/lexer-census-probe.ts:54-145 | terminates; the seven counters are the sizes of the seven classes in any cut of the text into shaped tokens, of which there is one, and sum to the cursor, which is the length of the text exactly when every quoted text and block comment is closed |
| `Census.TokenShaped` | packages/native/lexer-census-probe.ts:58-143 | every token has its shape: an identifier or a number a longest run, a mark the longest of the nine there is, a comment from its opener to its end, a quoted text to the next quote like it, else a single character of no other class |
| `Census.OnlyCut` | packages/native/lexer-census-probe.ts:54-145 | the tokens are the one cut of the text into such shapes |
| `TokenShapes.OneKind` | packages/native/lexer-census-probe.ts:58-143 | no two shapes fit at one place |
| `TokenShapes.OneCut` | packages/native/lexer-census-probe.ts:54-145 | a text can be cut into such shapes in one way only |
| `Census.OvershootsExactlyWhenOpen` | packages/native/lexer-census-probe.ts:75-105 | the cursor ends one place past the text exactly when a quoted text is open, two exactly when a block comment is, and never further |
| `AdjacencyKeys.JoinedInjective` | packages/native/adjlayout-probe.ts:92-108 | a joined key names its node and its type |
| `AdjacencyKeys.NumberedInjective` | packages/native/adjlayout-probe.ts:110-126 | a numbered key does, for types in range |
| `AdjacencyKeys.NestedIndex.Add` | packages/core/src/core/Graph.ts:4465-4506 | an edge joins the bucket of its node and type, and no other bucket changes |
| `AdjacencyKeys.NestedIndex.Remove` | packages/core/src/core/Graph.ts:4510-4530 | an edge leaves that bucket and no other; an empty bucket goes, its node stays |
| `AdjacencyKeys.HeldExactlyWhen` | packages/core/src/core/Graph.ts:4465-4530 | a bucket holds an edge exactly when it entered and did not leave since |
| `AdjacencyKeys.RunNested` | packages/core/src/core/Graph.ts:4465-4530 | after any changes the graph's index answers every lookup with what the bucket holds |
| `AdjacencyKeys.RunJoined` | packages/native/adjlayout-probe.ts:92-108 | after any changes the joined layout answers every lookup as the graph's index does |
| `AdjacencyKeys.RunNumbered` | packages/native/adjlayout-probe.ts:110-126 | after any changes the numbered layout does, for types in range |
| `AdjacencyKeys.BuildNested` | packages/native/adjlayout-probe.ts:68-91 | the probe's map of maps holds the fixture's one edge a node |
| `AdjacencyKeys.BuildJoined` | packages/native/adjlayout-probe.ts:92-108 | the probe's joined layout holds the same |
| `AdjacencyKeys.BuildPrekeyed` | packages/native/adjlayout-probe.ts:140-162 | the joined layout with its keys kept holds the same, and each kept key finds its own edge |
| `AdjacencyKeys.BuildNumbered` | packages/native/adjlayout-probe.ts:110-126 | the probe's numbered layout holds the same, for types in range |

## Left out

- Percentile.Position: floating-point rounding of the rank and of the interpolation is not modelled; both are exact reals.
- AdjacencyKeys.BuildNumbered: states lookups with a type below the number of types, because a larger one collides with the next node's keys; the short-key and control arms are not modelled.
- AdjacencyKeys.NestedIndex.Add: one direction of the index; the other direction and the bucket per type are kept the same way.
- FleetGenerator.Generate: the services' statuses and the NDJSON lines are not modelled.
- Topology.PathsAreShort: services and calls only; the rest of the graph a client may add is not modelled.
- Dedup.DedupRegistry.Drain: acknowledgements are naturals; the guard against non-finite ones is not modelled.
- ExactlyOnceRuns.ExactlyOnceInEveryRun: legacy clients, which send no sequence number and are documented as best-effort, take part in the registry's contracts but not in the runs; a session is one name, its parts are not.
- The engine sweep's per-slot adjacency cache: another way to reach the same edges.
- The cost rules that choose a route, index seeks, query parsing and planning: the model takes what they choose as given and proves the answer either way.
- The write log, resubscription, live queries, collections and snapshots' encoding in the sync layer.
- Timing, medians, process spawning, environment variables and console tables: measurement.
- The Rust engine, its FFI and wasm backends, sockets and storage.
