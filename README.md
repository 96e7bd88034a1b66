# Metro network routing, modelled in Dafny

The modelled program is a small transit-network library (`MetroAgi`). A
caller builds a network of stations (`Istasyon`), each with a key such as
`K1`, a display name, a line and a list of `(neighbour, travel time)`
entries. The caller adds stations (`istasyon_ekle`) and undirected
connections (`baglanti_ekle`), then asks two questions:

- the route with the fewest hops, by breadth-first search (`en_az_aktarma_bul`);
- a fast route, by best-first search over a heap ordered by travel time
  plus an estimate (`en_hizli_rota_bul` with `_heuristic`).

The source compares stations by object identity, and neighbour entries
point back at station objects. The model therefore keeps every record in
one arena, a sequence indexed by `nat`. An adjacency entry holds the
arena index of its neighbour, and the index serves as the identity.

## Files

- `stations.dfy` (`Stations`): the arena, the records, and the pure
  effect of appending a neighbour and of connecting two records. It also
  defines the symmetry invariant that a connection keeps.
- `walks.dfy` (`Walks`): walks, reachability, fewest-hop walks and the
  travel time along a walk. It holds the graph lemmas both searches rest on:
  - a walk must leave a closed set somewhere;
  - the breadth-first frontier bound;
  - cutting a loop out of a walk.
- `heuristic.dfy` (`Heuristic`): reading the number out of a key, and the
  estimate.
- `queue.dfy` (`BreadthFirstQueue`): the invariants of the breadth-first
  queue, and one lemma per step of the search.
- `heap.dfy` (`Heap`): the heap as a sequence with a minimum position, and
  the invariants of the best-first search with one lemma per step.
- `metro.dfy` (`Metro`): the class `Network` with the three mutable fields
  `stations`, `registry` and `lines`, its mutators, and the two searches
  written as loops.
- `scenario.dfy` (`Scenario`): the example network the repository builds
  (lines K, M and T, with transfers K1-M2, K3-T2 and M4-T3), with facts
  about its first query.

Adding a station whose key is already present does not behave as a no-op
here. Line 21 of the source tests the builtin `id` instead of the key, so
the guard always holds. A second `istasyon_ekle` with the same key
therefore does three things:
- creates a fresh record;
- re-points the key at that record;
- appends the record to its line's list again.

Connections made earlier still point at the old record. The model follows
this code. The guard was evidently meant to test `idx`, which would have made
re-insertion a no-op.

## Model

| member | source | states |
|---|---|---|
| Stations.AppendLink | HalukAkbay_MetroSimulation.py:12-13 | appending a neighbour adds exactly that entry at the end of one record's list; its key, name and line and every other record stay the same |
| Stations.Connect | HalukAkbay_MetroSimulation.py:26-30 | a connection appends `(j, time)` to `i`'s list and `(i, time)` to `j`'s (both to the one list when `i == j`); nothing else changes |
| Stations.ConnectKeepsSymmetric | HalukAkbay_MetroSimulation.py:26-30 | connecting two records keeps the network undirected: every entry `u -> v` with time `t` has a matching entry `v -> u` with time `t` |
| Stations.AppendStationKeepsSymmetric | HalukAkbay_MetroSimulation.py:20-24 | adding a record with no neighbours keeps the network undirected |
| Stations.SymmetricInRange | HalukAkbay_MetroSimulation.py:26-30 | a stand-alone fact about undirected networks: when every entry has its matching reverse entry in an existing record, every entry names an existing record |
| Stations.UnmarkedShrink | HalukAkbay_MetroSimulation.py:46-47 | marking a further record leaves strictly fewer unmarked records among all arena positions (`Indices`); this is the termination measure of both searches |
| Metro.LineMembers | HalukAkbay_MetroSimulation.py:18 | `hatlar` is a `defaultdict(list)`: a line never seen reads as the empty list, any other as its stored list |
| Metro.Network.constructor | HalukAkbay_MetroSimulation.py:16-18 | a new network has no records, an empty registry and no lines, and satisfies the invariant |
| Metro.Network.NewStation | HalukAkbay_MetroSimulation.py:6-10 | constructing a station appends a fresh record with that key, name and line and no neighbours, and returns its index; it is neither registered nor listed under its line, yet the invariant is kept, so it can be linked with `AddNeighbour` and reached by both searches; undirectedness is kept |
| Metro.Network.AddNeighbour | HalukAkbay_MetroSimulation.py:12-13 | the arena becomes `AppendLink` of the old arena; registry and lines are unchanged; the invariant (entries name records, keys and lines are consistent) is kept |
| Metro.Network.AddStation | HalukAkbay_MetroSimulation.py:20-24 | always appends a fresh record (through `NewStation`) with that key, name, line and no neighbours; the key maps to the new record; the line's list grows by that record and no other line's list changes; the invariant is kept, and so is undirectedness |
| Metro.Network.AddConnection | HalukAkbay_MetroSimulation.py:26-30 | fails, reporting the first missing key and changing nothing, exactly when a key is absent; otherwise the arena becomes `Connect` of the two registered records; registry and lines never change; the invariant is kept, and so is undirectedness |
| Metro.Network.FewestHops | HalukAkbay_MetroSimulation.py:32-50 | no route when a key is absent. Otherwise a route is a fewest-hop walk from start to goal with no repeated record. No route is returned exactly when the goal is unreachable. Start equal to goal gives `[start]` |
| Metro.EnqueueNeighbours | HalukAkbay_MetroSimulation.py:45-48 | the entries appended to the queue are exactly `(v, path + [v])` for each `v` of `FreshTargets`: the neighbours not yet visited, at their first listing, in adjacency order; the old entries stay in front; the visited set grows by exactly those records; every neighbour ends up visited and the queue stays layered |
| BreadthFirstQueue.FreshTargets | HalukAkbay_MetroSimulation.py:45-48 | the records an expansion queues: none was visited before and none appears twice |
| BreadthFirstQueue.FreshTargetsMembers | HalukAkbay_MetroSimulation.py:45-46 | a record is queued by the expansion exactly when some adjacency entry lists it and it was not visited |
| BreadthFirstQueue.FreshTargetsInOrder | HalukAkbay_MetroSimulation.py:45-48 | the queued records come in the order of their first listings in the adjacency list |
| BreadthFirstQueue.EnqueuedFresh | HalukAkbay_MetroSimulation.py:46-48 | marking and appending an unvisited neighbour moves `FreshTargets` one entry further |
| BreadthFirstQueue.EnqueuedSkip | HalukAkbay_MetroSimulation.py:46 | passing over a visited neighbour leaves `FreshTargets` as it was |
| Metro.Network.FastestRoute | HalukAkbay_MetroSimulation.py:62-99 | no result when a key is absent. Otherwise a result is a walk from start to goal, and its time is the sum of the travel times along it. No result is returned exactly when the goal is unreachable. Start equal to goal gives `([start], 0)` |
| Metro.TryNeighbour | HalukAkbay_MetroSimulation.py:89-97 | one neighbour is tried: when it has no known time or the route through the popped entry is cheaper, its time becomes the popped `g` plus the connection time, its `f` becomes that time plus the estimate, the counter goes up by one and the entry `(f, g, counter, neighbour, route + [neighbour])` is pushed; otherwise the times, estimates, counter and heap are all unchanged. The loop state (costs, counters, pushes along adjacency entries, estimates and the trace) is carried one entry further |
| Metro.RelaxNeighbours | HalukAkbay_MetroSimulation.py:88-97 | the new best-known times are `RelaxedCosts` of the old ones, and the `(station, g)` pairs pushed are `Improvements`: the entries that pass the test at line 91, in adjacency order. Each pushed entry carries the next counter, steps along an adjacency entry whose time is the difference of the two `g` values, and extends the route. Its `f` is `g` plus the estimate. Every entry stays honest |
| Heap.ImprovesExactlyWhenChanged | HalukAkbay_MetroSimulation.py:91 | the test `Improves` passes exactly when recording the candidate time for the entry would change the best-known times |
| Heap.RelaxedCosts | HalukAkbay_MetroSimulation.py:88-92 | the reference definition of the best-known times after trying the entries in order; no record loses its time |
| Heap.Improvements | HalukAkbay_MetroSimulation.py:88-97 | the reference definition of the `(station, g)` pairs pushed, one per entry that passes the test, in adjacency order; at most one per entry |
| Heap.RelaxedKeys | HalukAkbay_MetroSimulation.py:88-92 | relaxation costs exactly the records already costed and the listed neighbours; a record that is not a neighbour keeps its time |
| Heap.RelaxedBelow | HalukAkbay_MetroSimulation.py:88-92 | no time goes up, and each neighbour ends at most at the time through each of its entries |
| Heap.RelaxedAttained | HalukAkbay_MetroSimulation.py:88-92 | each time after relaxation is the earlier time or the time through one of the entries; with `RelaxedBelow`, each neighbour ends at the least of these |
| Heap.ImprovementsPushed | HalukAkbay_MetroSimulation.py:91-97 | at most one push per entry; each pushed pair is the time through one entry; every record whose time changed had its final time pushed |
| Heap.TraceImprove | HalukAkbay_MetroSimulation.py:91-97 | an entry that passes the test records its time and pushes its pair, following `RelaxedCosts` and `Improvements` one entry further |
| Heap.TraceSkip | HalukAkbay_MetroSimulation.py:91 | an entry that fails the test changes neither the times nor the pushes |
| Heuristic.KeyIndex | HalukAkbay_MetroSimulation.py:54-55 | the number after the first character of a key; a single digit reads as its own value |
| Heuristic.KeyIndexAppendDigit | HalukAkbay_MetroSimulation.py:54-55 | appending a digit to a key gives ten times its number plus that digit, as decimal notation requires |
| Heuristic.Estimate | HalukAkbay_MetroSimulation.py:52-60 | the estimate is non-negative and even; it is at least 2 across lines; for equal key numbers it is 0 on the same line and 2 across lines |
| Heuristic.EstimateSelfAndSymmetric | HalukAkbay_MetroSimulation.py:52-60 | the estimate from a station to itself is 0 and does not depend on direction |
| Heuristic.EstimateTriangle | HalukAkbay_MetroSimulation.py:52-60 | the estimate obeys the triangle inequality |
| Heap.NotAfter | HalukAkbay_MetroSimulation.py:75-78 | the order `heapq` compares tuples in, on `(f, g, counter)`: a smaller `f` always comes first, and an entry that comes first never has a larger `f` |
| Heap.NotAfterOrder | HalukAkbay_MetroSimulation.py:75-78 | that order is reflexive, total and transitive, and two entries each before the other agree on `f`, `g` and counter |
| Heap.MinEntry | HalukAkbay_MetroSimulation.py:78 | the popped position holds an entry that precedes or equals every entry in `(f, g, counter)` order |
| Heap.RemoveAt | HalukAkbay_MetroSimulation.py:78 | popping removes exactly one entry and keeps the others in order |
| Heap.HeapStations | HalukAkbay_MetroSimulation.py:75 | exactly the records that have an entry in the heap |
| Heap.RemoveKeeps | HalukAkbay_MetroSimulation.py:78 | popping keeps every other entry honest, and loses only the popped entry's record |
| Heap.StationsAppend | HalukAkbay_MetroSimulation.py:97 | a push adds exactly its record to those in the heap |
| Heap.PushedHonest | HalukAkbay_MetroSimulation.py:89-97 | an entry pushed from an honest entry along an adjacency entry is honest: its route is a walk from the start and its `g` is that walk's time |
| Heap.RelaxStep | HalukAkbay_MetroSimulation.py:91-97 | lowering a neighbour's best-known time and pushing its entry keeps the relaxation invariant |
| Heap.RelaxSkip | HalukAkbay_MetroSimulation.py:91 | passing over a neighbour with no cheaper route keeps the relaxation invariant |
| Heap.SkipKeeps | HalukAkbay_MetroSimulation.py:83-84 | discarding an entry for a closed record keeps the search invariant |
| Heap.CloseKeeps | HalukAkbay_MetroSimulation.py:86-97 | closing a non-goal record and costing all of its neighbours keeps the search invariant (every costed record closed or in the heap, every neighbour of a closed record costed) |
| Walks.ClosedSetTraps | HalukAkbay_MetroSimulation.py:50 | if a set holds the start and every record it lists, no record outside it is reachable; this is why `None` means unreachable |
| Walks.FrontierBound | HalukAkbay_MetroSimulation.py:45-48 | a record first seen from the frontier at depth `n` needs at least `n + 1` records to reach |
| Walks.FirstExit | HalukAkbay_MetroSimulation.py:45-48 | a walk from inside a set to outside it crosses the boundary at some step |
| Walks.WalkExtend | HalukAkbay_MetroSimulation.py:48 | a path extended by a neighbour of its last record is a walk to that neighbour |
| Walks.CostExtend | HalukAkbay_MetroSimulation.py:89-97 | extending a route by an adjacency entry adds that entry's time to its cost |
| Walks.CostsAlongIsWalk | HalukAkbay_MetroSimulation.py:80-81 | a route with a travel time is a walk |
| Walks.WalkHasCost | HalukAkbay_MetroSimulation.py:88-89 | every walk has a travel time along it |
| Walks.ShortestToSelf | HalukAkbay_MetroSimulation.py:42-43 | the only fewest-hop walk from a record to itself is that record alone |
| Walks.ShortestSameLength | HalukAkbay_MetroSimulation.py:32-50 | all fewest-hop walks between two records have the same length |
| Walks.CutLoop | HalukAkbay_MetroSimulation.py:46-47 | removing a loop from a walk leaves a shorter walk with the same ends |
| Walks.ShortestHasNoRepeats | HalukAkbay_MetroSimulation.py:46-47 | a fewest-hop walk never visits a record twice |
| BreadthFirstQueue.Queued | HalukAkbay_MetroSimulation.py:38 | exactly the records that have an entry in the queue |
| BreadthFirstQueue.DequeueOrdered | HalukAkbay_MetroSimulation.py:40 | taking the front keeps the queue ordered; the front record is queued nowhere else |
| BreadthFirstQueue.DequeueGood | HalukAkbay_MetroSimulation.py:40 | after taking the front, the rest of the queue lies within one hop of the front's depth |
| BreadthFirstQueue.NextIsShortest | HalukAkbay_MetroSimulation.py:45-48 | an unvisited neighbour of the record being expanded is reached in fewest hops by the path through that record |
| BreadthFirstQueue.EnqueueKeeps | HalukAkbay_MetroSimulation.py:47-48 | queueing a fresh record with a fewest-hop path keeps the queue layered and adds exactly that record |
| BreadthFirstQueue.ExpandStep | HalukAkbay_MetroSimulation.py:46-48 | marking and queueing an unvisited neighbour keeps the expansion invariant |
| BreadthFirstQueue.SkipStep | HalukAkbay_MetroSimulation.py:46 | passing over a visited neighbour keeps the expansion invariant |
| BreadthFirstQueue.FrontierInit | HalukAkbay_MetroSimulation.py:37-38 | at the start only the start record is visited and queued, with path `[start]` |
| BreadthFirstQueue.PopStep | HalukAkbay_MetroSimulation.py:40 | taking the front entry starts the expansion of its record with a fewest-hop path |
| BreadthFirstQueue.ExpandedStep | HalukAkbay_MetroSimulation.py:45-48 | once all neighbours are handled, the record counts as expanded and the search invariant holds again |
| Scenario.ExampleSymmetric | HalukAkbay_MetroSimulation.py:127-144 | the example network, after its twelve connections, is undirected |
| Scenario.ExampleKeys | HalukAkbay_MetroSimulation.py:105-124 | every example key is a letter followed by a numeral, and the registry maps each key to its record |
| Scenario.ExampleFewestHops | HalukAkbay_MetroSimulation.py:150-153 | from M1 to K4 the fewest-hop routes visit six stations, and M1, M2, K1, K2, K3, K4 is one of them |
| Scenario.ExampleRouteTime | HalukAkbay_MetroSimulation.py:155-158 | the route M1, M2, K1, K2, K3, K4 takes 25 minutes |
| Scenario.ExampleEstimateOverestimates | HalukAkbay_MetroSimulation.py:52-60 | on the example the estimate from T2 to K3 is 4 while their direct connection takes 3, so the estimate is not admissible |
| Scenario.RedPredecessors | HalukAkbay_MetroSimulation.py:127-144 | in the example, the records that list K1, K2, K3 or K4 |
| Scenario.ExampleOnlySixWalk | HalukAkbay_MetroSimulation.py:127-144 | M1, M2, K1, K2, K3, K4 is the only six-station walk from M1 to K4 |
| Scenario.QueryExampleHops | HalukAkbay_MetroSimulation.py:150-153 | on the example network the fewest-hop query from M1 to K4 returns exactly M1, M2, K1, K2, K3, K4 |
| Scenario.QueryExampleFastest | HalukAkbay_MetroSimulation.py:155-158 | on the example network the fast-route query from M1 to K4 finds a route from M1 to K4 |

## Left out

- The example harness's printing is not modelled, and neither is building the example through the class (lines 102-180). The example network is given as a value, together with the registry its twelve `istasyon_ekle` calls produce.
- Metro.Network.FastestRoute: does not promise the least total time. The estimate is not admissible, as `ExampleEstimateOverestimates` shows, so best-first search with it need not be optimal. Only soundness and completeness are stated.
- Scenario.QueryExampleFastest: does not determine which route is found on the example or its time. That would need the exact order of heap pops, which `FastestRoute`'s contract does not fix. `ExampleRouteTime` only shows that M1, M2, K1, K2, K3, K4 takes 25 minutes.
- Metro.Network.FastestRoute: requires every key in the arena to be one character followed by decimal digits. The source reads only the keys of records it reaches. On a key that is not of this form, Python's `int()` raises `ValueError` or accepts forms that are not modelled (signs, spaces, underscores).
- Metro.Network.FastestRoute: the map of `f` values (`maliyet_f`) is kept and updated as in the source, but its contents are not stated. The `f` of each pushed entry is stated instead.
- Python exceptions: the `KeyError` of `baglanti_ekle` on a missing key is modelled as the returned missing key, and no other error is modelled.
- `heapq`'s internal layout: the heap is a sequence, and a pop takes a position holding a least entry in `(f, g, counter)` order. Counters are distinct, so the station objects are never compared.
- `deque` and `defaultdict` are modelled as a sequence and a map read through `LineMembers`.
- Object identity is modelled as the arena index. After a key is re-added, the old record stays in the arena, unreachable by key.
