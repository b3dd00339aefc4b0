# Verified model of six algorithm exercises

This project models, in Dafny, the algorithmic core of a Python repository of
exercises and proves what each one promises.

- **Energy grid allocator** (`q4_energy_grid.py`). `allocate_energy_dp(hour, demand)`
  keeps the sources available in the hour and orders them cheapest first. It builds a
  knapsack-style table `(sources processed, energy) -> least cost` with a parent map,
  where every use of "Diesel" adds a flat penalty. It then picks the cheapest final
  energy inside a ±10 % band and walks the parent links back to units per source.
  Module `EnergyGrid`, in `energy_grid.dfy`.
- **Tile shatter** (`q2_tile_shatter_dp.py`). `maxPoints` is an interval dynamic
  program over a 2-D table, proved to compute the best score of the shattering game.
  Module `TileShatter`.
- **Service centres** (`q3_service_centers.py`). `build_tree` turns a level-order list
  into linked `TreeNode` objects. `Solution.minServiceCenters` is the greedy post-order
  covering with a counter kept in the object. Module `ServiceCenters`.
- **Two-half merge sort** (`q5b_multithread_sort.py`). `sort_subarray` and
  `merge_subarrays` are run one after the other on the `arr` and `temp` arrays.
  Module `ThreadedSort`.
- **Graph search** (`q6_poland.py`). `dfs_search`, `bfs_search` and
  `reconstruct_path` run over a weighted adjacency map with string node names.
  Module `GraphSearch`.
- **Tour moves** (`q1b_tsp_sa.py`). `swap_neighborhood` and `two_opt_neighborhood`,
  with the random positions passed in. Module `TourMoves`.

`common.dfy` (module `Common`) holds `Option`, `Max` and `Reverse` (`s[::-1]`).

Code that updates state keeps that form in the model:

- the dictionaries and lists of the energy allocator and of the searches are `map`
  and `seq` variables updated in `while` loops;
- the tile table is an `array2`;
- `arr` and `temp` are arrays;
- `TreeNode` and `Solution` are classes.

Each method is proved against a specification function. The lemmas relate that
function to what the program is meant to compute: the cheapest in-band allocation,
the best game score, a covering of every city, a sorted permutation, a path along
graph edges, and a permutation of the tour.

Two Python behaviours are modelled as follows:

- **Float costs.** The costs 1.0, 1.5 and 3.0 and the penalty 1000 are exact `real`s,
  and `int(demand * 0.9)` is the floor of the exact product. Python computes these
  with floats; the `EnergyGrid.AllocateEnergyDp` line under "Left out" says what that
  leaves unproved.
- **Dictionary order.** Insertion order is a key sequence, `keys`, that `BuildTable`
  returns next to the table and `SelectBest` scans. So the tie rules are the
  program's: a strictly cheaper candidate replaces an entry, and the final scan keeps
  the first minimum.

## Model

| member | source | states |
|---|---|---|
| EnergyGrid.AvailableSources | q4_energy_grid.py:85-88 | exactly the catalog entries whose hour range admits the hour are kept |
| EnergyGrid.AvailableSourcesInOrder | q4_energy_grid.py:85-88 | the kept entries are a subsequence of the catalog: catalog order is kept and nothing is reordered |
| EnergyGrid.CatalogNamesDistinct | q4_energy_grid.py:36-55 | the catalog's three names are pairwise different, as dictionary keys are |
| EnergyGrid.CatalogByHour | q4_energy_grid.py:36-55 | on the program's catalog, hours 6-16 give Solar and Hydro, 17-18 all three, 19-23 Hydro and Diesel, any other hour Hydro alone |
| EnergyGrid.CatalogAlreadyCheapestFirst | q4_energy_grid.py:85-91 | on the program's catalog, sorting by cost leaves the available sources in catalog order |
| EnergyGrid.SortedIsFixed | q4_energy_grid.py:91 | sorting a list that is already ascending by cost returns it unchanged |
| EnergyGrid.SortByCost | q4_energy_grid.py:91 | the sorted list is a permutation of the available sources |
| EnergyGrid.SortByCostSorted | q4_energy_grid.py:91 | the processing order is ascending by unit cost |
| EnergyGrid.SortByCostStable | q4_energy_grid.py:91 | the sort is stable: sources of equal cost keep their catalog order |
| EnergyGrid.SortByCostDistinct | q4_energy_grid.py:91 | sorting keeps source names distinct |
| EnergyGrid.ProcessingOrderFacts | q4_energy_grid.py:85-91 | the sources folded in are exactly those available in the hour, cheapest first, ties in catalog order |
| EnergyGrid.BandBounds | q4_energy_grid.py:93-94 | the band is [floor(9d/10), floor(11d/10)] and contains the demand d |
| EnergyGrid.ScanFacts | q4_energy_grid.py:110-125 | entry (j + 1, e) exists exactly when some predecessor energy reaches e; its cost is that predecessor's entry plus units times cost plus penalty |
| EnergyGrid.ScanIsEarliestMinimum | q4_energy_grid.py:123-125 | an entry is no dearer than any candidate tried and strictly cheaper than every earlier one: ties keep the earliest predecessor |
| EnergyGrid.CostIsUnitsPlusPenalties | q4_energy_grid.py:118-119 | an allocation costs its units times unit costs plus one penalty per used "Diesel" source, and nothing else |
| EnergyGrid.TableIsLowerBound | q4_energy_grid.py:101-125 | the table entry for the total of any allocation within the capacities is no dearer than that allocation |
| EnergyGrid.WitnessAchieves | q4_energy_grid.py:101-125 | the parent chain from (j, e) is an allocation within capacities that totals e and costs exactly the entry: entries are minima |
| EnergyGrid.SelectFacts | q4_energy_grid.py:130-137 | the final scan keeps nothing exactly when no reachable energy is in the band, else an in-band energy of least cost, the first such |
| EnergyGrid.InfeasibleIff | q4_energy_grid.py:130-140 | `(None, None)` is returned exactly when no allocation within the capacities totals inside the band |
| EnergyGrid.ChosenFacts | q4_energy_grid.py:130-154 | a returned result comes from an in-band energy of least table cost, its cost is that entry and its map tallies the parent chain |
| EnergyGrid.Sound | q4_energy_grid.py:130-154 | a returned allocation fits the capacities, totals inside the band and costs exactly `best_cost` |
| EnergyGrid.Optimal | q4_energy_grid.py:130-154 | no allocation within the capacities and inside the band is cheaper than the returned one |
| EnergyGrid.AllocCostOnTerms | q4_energy_grid.py:113-119 | the cost of an allocation depends only on the sources' names and unit costs, not on their capacities |
| EnergyGrid.CapacityMonotone | q4_energy_grid.py:67-154 | with the same sources and larger capacities, a feasible demand stays feasible and its least cost does not rise |
| EnergyGrid.KeepsFirstMinimum | q4_energy_grid.py:133-137 | every in-band allocation with a smaller total than the returned one is strictly dearer |
| EnergyGrid.ZeroDemand | q4_energy_grid.py:93-154 | demand 0 is always met at cost 0 by drawing nothing |
| EnergyGrid.TallyFacts | q4_energy_grid.py:145-152 | the allocation map has one key per processed source, and with distinct names each entry is that source's units |
| EnergyGrid.AllocationEntries | q4_energy_grid.py:145-154 | the returned map names exactly the processed sources, each with the units drawn from it |
| EnergyGrid.Improve | q4_energy_grid.py:123-125 | an entry and its parent are replaced only by a strictly cheaper cost; an absent entry reads as infinite and gains its key |
| EnergyGrid.TryUsed | q4_energy_grid.py:114-125 | one `used` value offered to entry (i + 1, p + used) keeps row i + 1 equal to the scan's current choices |
| EnergyGrid.RelaxFrom | q4_energy_grid.py:114-125 | after every `used` value of one predecessor, row i + 1 holds the scan's choices with that predecessor tried |
| EnergyGrid.ExtendRow | q4_energy_grid.py:106-125 | one source's pass over the snapshot turns a table final up to row i into one final up to row i + 1, keys in insertion order |
| EnergyGrid.BuildTable | q4_energy_grid.py:96-125 | the table and parent map hold exactly the reachable states, each entry its least cost and its recorded parent |
| EnergyGrid.SelectBest | q4_energy_grid.py:130-137 | the scan over the table's items returns the specified first cheapest in-band energy and its cost |
| EnergyGrid.BacktrackStep | q4_energy_grid.py:148-152 | the parent of (i, e) names source i - 1 and its units, and leads to the rest of the allocation |
| EnergyGrid.Backtrack | q4_energy_grid.py:145-152 | the walk takes exactly one step per source, ends at energy 0 and tallies the chosen allocation |
| EnergyGrid.Solve | q4_energy_grid.py:96-154 | table, selection and backtrack give the specified energy inside the band, its cost and its allocation |
| EnergyGrid.AllocateEnergyDp | q4_energy_grid.py:67-154 | the whole function returns the specified outcome, whose soundness and optimality the lemmas above establish |
| TileShatter.Padded | q2_tile_shatter_dp.py:25-26 | the padded row is the tiles between two tiles of value 1, with length len(nums) + 2 |
| TileShatter.BestOverFacts | q2_tile_shatter_dp.py:40-46 | the scan over last tiles is at least 0, at least every candidate, and equals one of them unless it is 0 |
| TileShatter.BestNonNegative | q2_tile_shatter_dp.py:31-49 | every table entry is non-negative |
| TileShatter.BestDominates | q2_tile_shatter_dp.py:40-46 | `dp[l][r]` is at least `nums[l]*nums[k]*nums[r] + dp[l][k] + dp[k][r]` for every k between l and r |
| TileShatter.BestAttained | q2_tile_shatter_dp.py:40-46 | with non-negative tiles, `dp[l][r]` equals that sum for some k |
| TileShatter.PlanBounded | q2_tile_shatter_dp.py:4-6 | no shattering order of the tiles between l and r scores more than `dp[l][r]` |
| TileShatter.OptimalPlan | q2_tile_shatter_dp.py:4-6 | with non-negative tiles, some shattering order scores exactly `dp[l][r]`: the answer is the game's maximum |
| TileShatter.SmallInputs | q2_tile_shatter_dp.py:25-49 | no tiles give 0; one tile x gives max(0, x), which is x for x >= 0 |
| TileShatter.MaxPoints | q2_tile_shatter_dp.py:15-49 | filling the table by increasing interval length returns the best score of the padded row |
| ServiceCenters.TreeNode.constructor | q3_service_centers.py:25-30 | a new node holds its value and has no children |
| ServiceCenters.RootBuilt | q3_service_centers.py:45-47 | the root alone is the tree of the first list position |
| ServiceCenters.AttachChild | q3_service_centers.py:53-61 | a slot holding a value gets a fresh childless node with that value, linked as the left or right child |
| ServiceCenters.ReadSlot | q3_service_centers.py:52-62 | one slot read: a `None` or missing position adds nothing, a value adds exactly one fresh node, and the tree stays the one the list prescribes |
| ServiceCenters.ServeNext | q3_service_centers.py:49-62 | a dequeued node consumes exactly two positions, left then right, and the queue stays the created nodes not yet served |
| ServiceCenters.BuildTree | q3_service_centers.py:33-64 | null exactly for an empty list or a `None` first entry; otherwise the linked nodes are the level-order tree, with no more nodes than non-`None` entries |
| ServiceCenters.GreedyFacts | q3_service_centers.py:79-96 | state 2 exactly when the node holds a centre, 1 when a child does (or the node is null), 0 when neither does; every node below is covered |
| ServiceCenters.Coverage | q3_service_centers.py:98-102 | after the root check every city holds a centre or has a parent or child that holds one |
| ServiceCenters.PlacedAtMostNodes | q3_service_centers.py:79-102 | at most one centre is placed per city |
| ServiceCenters.Solution.constructor | q3_service_centers.py:69-70 | a new `Solution` starts with 0 centres |
| ServiceCenters.Solution.Dfs | q3_service_centers.py:79-96 | the returned state is the greedy state of the subtree, and the counter grows by the centres placed in it |
| ServiceCenters.Solution.MinServiceCenters | q3_service_centers.py:72-104 | the counter grows by the centres of the covering layout (0 for an empty tree) and is returned, accumulating over calls |
| ThreadedSort.SortSeq | q5b_multithread_sort.py:55 | `sorted` returns an ascending permutation of its input |
| ThreadedSort.SortedUnique | q5b_multithread_sort.py:55 | two ascending lists with the same elements are equal, so `sorted` is determined by its input's elements |
| ThreadedSort.AssignSlice | q5b_multithread_sort.py:55 | the slice assignment writes the new elements into the slice and leaves the rest of `arr` unchanged |
| ThreadedSort.SortSubarray | q5b_multithread_sort.py:47-56 | `arr[start:end]` becomes the ascending permutation of its old contents; all other cells are unchanged |
| ThreadedSort.MergeTracks | q5b_multithread_sort.py:76-96 | each value the merge writes is taken from a position in the rest of one of the two runs |
| ThreadedSort.MergePermutes | q5b_multithread_sort.py:71-96 | the merge writes every element of both runs exactly once |
| ThreadedSort.MergeAscends | q5b_multithread_sort.py:62-96 | two ascending runs merge into an ascending sequence |
| ThreadedSort.MergeStable | q5b_multithread_sort.py:77 | the merge is stable: of two equal values, the one from the earlier position is written first |
| ThreadedSort.PutLeft | q5b_multithread_sort.py:77-83 | writing the left head advances i and k together and writes the next merged value |
| ThreadedSort.PutRight | q5b_multithread_sort.py:80-83 | writing the right head advances j and k together and writes the next merged value |
| ThreadedSort.MergeHeads | q5b_multithread_sort.py:76-83 | the first loop keeps `k - start == (i - start) + (j - mid)` and stops when one run is used up |
| ThreadedSort.DrainLeft | q5b_multithread_sort.py:86-89 | the second loop copies the rest of the left run and ends with i == mid |
| ThreadedSort.DrainRight | q5b_multithread_sort.py:93-96 | the third loop copies the rest of the right run and ends with j == end and k == end |
| ThreadedSort.MergeSubarrays | q5b_multithread_sort.py:62-96 | `temp[start:end]` receives the merge; `arr` and the rest of `temp` are unchanged |
| ThreadedSort.MergedSortedPermutation | q5b_multithread_sort.py:62-70 | with both halves sorted, the merge is a sorted permutation of `arr[start:end]` |
| ThreadedSort.HalvesPermute | q5b_multithread_sort.py:113-128 | sorting the two halves separately keeps the elements of the whole |
| ThreadedSort.HalvesMerge | q5b_multithread_sort.py:127-132 | merging the two sorted halves gives `sorted(arr)` |
| ThreadedSort.SortInHalves | q5b_multithread_sort.py:110-143 | sort both halves, then merge: `temp` ends up holding `arr`'s original elements in ascending order, and `arr` holds its sorted left half followed by its sorted right half |
| GraphSearch.BelowIrreflexive | q6_poland.py:83 | no name is below itself in Python's string order |
| GraphSearch.BelowTransitive | q6_poland.py:83 | the string order is transitive |
| GraphSearch.BelowTotal | q6_poland.py:83 | any two different names are ordered one way or the other |
| GraphSearch.SortByName | q6_poland.py:106 | `sorted(items)` is a permutation of the neighbour items |
| GraphSearch.SortAscending | q6_poland.py:106 | with distinct neighbour names the sorted items are strictly ascending by name |
| GraphSearch.PoppedAscending | q6_poland.py:82-87 | the neighbours pushed in reverse-sorted order are popped in ascending name order |
| GraphSearch.FreshSelects | q6_poland.py:84 | exactly the neighbours not closed are added |
| GraphSearch.AttachSets | q6_poland.py:85 | every added neighbour's parent becomes the expanded node; every other parent entry is unchanged |
| GraphSearch.ChainFacts | q6_poland.py:55-60 | the parent chain ends at the goal, starts at a node whose parent is `None`, and each node's parent precedes it |
| GraphSearch.ReconstructPath | q6_poland.py:52-60 | `[]` when the goal has no parent entry, otherwise the parent chain root first; the walk terminates |
| GraphSearch.ChainIsPath | q6_poland.py:57-60 | the chain of a node in a search's parent map is a path of the graph from `start` to that node |
| GraphSearch.AttachKeepsTree | q6_poland.py:84-87 | linking an open neighbour to a closed node keeps the parent map acyclic and `start` its only root |
| GraphSearch.Found | q6_poland.py:74-75 | when the goal is popped, the search returns its edges, a non-empty graph path from `start` to the goal and the popped cost |
| GraphSearch.PushAdd | q6_poland.py:84-87 | an open neighbour gets the node as parent, a tree edge and a stack entry with the popped cost plus the weight |
| GraphSearch.PushEach | q6_poland.py:83-87 | the neighbour loop pushes exactly the open neighbours, in order, and keeps the parent map a tree |
| GraphSearch.PushNeighbours | q6_poland.py:82-87 | the stack, edges and parent map grow by the open neighbours in reverse-sorted order; every frontier entry keeps a parent |
| GraphSearch.ExpandNode | q6_poland.py:77-87 | a node is closed and expanded only if it was not closed, so no node is expanded twice |
| GraphSearch.DfsSearch | q6_poland.py:65-89 | a found path is a graph path from `start` to the goal with finite cost; otherwise `[]` and infinite cost; every edge is a graph edge and starts at an expanded node; at most one expansion per node |
| GraphSearch.OrderExtends | q6_poland.py:107-111 | each enqueued node is new: the log of enqueued nodes has no repeats and lies in `closed` |
| GraphSearch.EnqueueAdd | q6_poland.py:107-111 | an open neighbour is closed, gets the node as parent, a tree edge and a queue entry with the popped cost plus the weight |
| GraphSearch.EnqueueEach | q6_poland.py:106-111 | the neighbour loop enqueues exactly the neighbours not yet closed, in order, each once |
| GraphSearch.EnqueueNeighbours | q6_poland.py:106-111 | the queue, edges, parent map and closed set grow by the open neighbours in sorted order; the parent map stays a tree |
| GraphSearch.Dequeued | q6_poland.py:100-101 | the dequeued node is the next node enqueued, and the rest of the queue follows the enqueue order |
| GraphSearch.BfsSearch | q6_poland.py:94-113 | `start` is enqueued first; each node is enqueued at most once, so there are at most as many dequeues as nodes; a found path is a graph path with finite cost, otherwise `[]` and infinite cost; every edge starts at a node already dequeued |
| TourMoves.Swap | q1b_tsp_sa.py:54-61 | the new tour has the same length, the cities at i and j exchanged and every other position unchanged |
| TourMoves.SwapPermutes | q1b_tsp_sa.py:58-61 | the swapped tour holds the same cities, each as often |
| TourMoves.SwapSymmetric | q1b_tsp_sa.py:58 | the order in which the two positions are drawn does not matter |
| TourMoves.SwapTwice | q1b_tsp_sa.py:59-60 | the same swap applied twice restores the tour |
| TourMoves.SwapKeepsTour | q1b_tsp_sa.py:58-61 | a swap of a permutation of the cities is again one |
| TourMoves.TwoOpt | q1b_tsp_sa.py:64-69 | same length; positions before i and from j on unchanged; position i + t holds `tour[j - 1 - t]` |
| TourMoves.ReversePermutes | q1b_tsp_sa.py:69 | `[::-1]` keeps every element, each as often |
| TourMoves.TwoOptPermutes | q1b_tsp_sa.py:68-69 | the 2-opt tour holds the same cities, each as often |
| TourMoves.TwoOptTwice | q1b_tsp_sa.py:69 | reversing the same segment twice restores the tour |
| TourMoves.TwoOptAdjacent | q1b_tsp_sa.py:68-69 | adjacent positions give a one-city segment, so the move returns the tour unchanged |
| TourMoves.TwoOptKeepsTour | q1b_tsp_sa.py:68-69 | a 2-opt move of a permutation of the cities is again one |

## Left out

- `q5_gui_simulator.py` is not part of this model. It is a Tkinter and matplotlib user interface over networkx routines whose code is not available.
- `q1a_sensor_hub.py` and `Question1/q1a_sensor_placement.py` are not part of this model. The Weiszfeld iteration is floating-point numerics with epsilon convergence.
- In `q1b_tsp_sa.py`, city generation, `euclidean_distance`, `total_tour_distance` and `simulated_annealing` are not modelled: they are random sampling and float `sqrt`/`exp` schedules. The two positions that `random.sample` draws are parameters of `Swap` and `TwoOpt`.
- TourMoves.Swap: `random.sample` raises `ValueError` for tours shorter than 2. Callers of the model must supply two distinct valid positions instead.
- In `q6_poland.py`, `a_star_search` is not modelled, because its order depends on the float `math.dist` heuristic. The module-level runs, printing and drawing are not modelled either.
- GraphSearch.DfsSearch, GraphSearch.BfsSearch: the `KeyError` the program would raise for a start node missing from the graph, or a neighbour that is not a key, is excluded by `start in graph` and `WellFormed`. The shipped graph meets both.
- GraphSearch.DfsSearch, GraphSearch.BfsSearch: the returned cost is not proved equal to the weight of the returned path. That proof needs an invariant that ties each frontier entry's cost to the weight of its node's parent chain. For breadth-first search that rests on parent links never changing once set. For depth-first search it also rests on the entry that closes a node being that node's latest push, so that its cost matches the parent link. The model does not carry that invariant.
- GraphSearch.SortByName: Python's `sorted` on `(name, weight)` pairs is modelled by insertion by name. Neighbour names in one dictionary are distinct, so the weight never decides.
- In `q5b_multithread_sort.py`, thread creation, `start`/`join` and the prints are not modelled. The two sorts and the merge run in sequence in `SortInHalves`, the order the joins enforce.
- ThreadedSort.SortSubarray: `sorted` is modelled by a reference insertion sort, `SortSeq`. `SortedUnique` shows that any ascending permutation equals it.
- In `q4_energy_grid.py`, the hourly demand table, the loop over hours, the totals and the printed report are not modelled, including the float renewable percentage. The `renewable` flag is carried in `Source` but not used by the allocator.
- EnergyGrid.AllocateEnergyDp: demand is a natural number, and the band uses exact rational arithmetic. Python's `demand_total * 0.9` is a float product, which rounds to the same integer for the demands the program uses, but this is not proved.
- EnergyGrid.AllocateEnergyDp: a `defaultdict` entry that is read but absent holds `inf`. It is modelled as an absent key that then gains its key in the insertion order; its value is always overwritten at once because the new cost is finite.
- ServiceCenters.Solution.MinServiceCenters: the claim that the count is the least over all coverings is not proved. Coverage, and at most one centre per city, are proved.
- ServiceCenters.Solution.Dfs: Python's default recursion limit is about 1000 frames, so `dfs` raises `RecursionError` on a tree deeper than that, such as a long chain. The model has no depth limit and returns a state and a count for every tree.
- The `__main__` blocks of `q2_tile_shatter_dp.py` and `q3_service_centers.py` only print, and are not modelled.
- Several loops are split into helper methods or lemmas that model one loop body each, such as `TryUsed`, `ReadSlot`, `PutLeft` and `EnqueueAdd`. The composition is the source's loop.
