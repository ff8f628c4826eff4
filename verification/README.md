# Proofs about the simulator's routing and tooling

This project models the parts of the repository that are algorithms of their own, outside the ns-3
libraries, and proves what they compute:

* **ECMP routing in the leaf-spine simulations.** The graph `nbr2if`, the breadth-first search that fills
  `nextHop`, the forwarding tables, link failures, the walk of a flow that hashes its way through
  equal-cost next hops, the hash itself, and the topology generator together with the code of `main` that
  reads its output.
* **The worker pool of test.py.** The main thread, the workers, the two queues and the interrupt flag as
  a transition system, and the summary and exit status computed from what is collected.
* **Graph algorithms of the tools.** The level-by-level load order of the Python bindings and the
  depth-first listing of configuration paths.
* **Numeric loops over exact reals.** Empirical distributions (loading, sampling, mean, variance) and the
  one-pass statistics of the scheduler benchmark.
* **The style fixer.** Trailing whitespace and tabs, with the clang-format guard state.
* **Launching flows.** The event that launches the flows of a flow file and numbers their source ports.

Code that updates fields or loops is modelled by methods and classes (`Simulator.Sim`, `Cdf.CdfTable`,
`DependencyOrder.Sorter`, `Gather.StaticInformation`, `Style.File`, `Welford.BenchSuite`,
`FlowSchedule.FlowScheduler`), each proved against specification functions; the properties are lemmas about
these functions.

| file | content |
|---|---|
| Network.dfy, Bfs.dfy, Routes.dfy, Metrics.dfy | the graph, the search and its invariant, distances, next hops, path metrics |
| Trace.dfy, LinkDown.dfy, Tables.dfy, Simulator.dfy | walks of flows, failures, tables, the methods themselves |
| Ports.dfy | interface numbers of traces and tables |
| EcmpHash.dfy, Addresses.dfy | the flow hash and the host addresses |
| LeafSpine.dfy, LeafSpineRoutes.dfy | generator, reader, routing on the generated graph, and a whole run |
| WorkerPool.dfy, JobFates.dfy, TestSummary.dfy | the pool's transition system, what becomes of each job, and the summary of a run |
| DependencyOrder.dfy, Gather.dfy | load order and configuration paths |
| Cdf.dfy, Welford.dfy | numeric loops |
| Style.dfy | the style fixer |
| FlowSchedule.dfy | flow launching |
| Wrappers.dfy | an option type |

## What the proofs say about the code

* `ip_to_node_id` inverts `node_id_to_ip` exactly on ids below 65536, and two ids share an address exactly
  when they agree modulo 2^24 (`Addresses.IpRoundTrip`, `Addresses.AddressesCollide`).
* The source ports of one host pair repeat exactly after 65536 flows (`FlowSchedule.PortsRepeat`).
* The load order's recursion ends exactly for relations that are closed and acyclic
  (`DependencyOrder.TerminatesIffAcyclic`); on any other input the source recurses until the stack is full.
* A trace to an unreachable destination, or to a switch, is the single pair `(dst, 0)`
  (`Trace.TraceUnreachable`); claims about paths therefore ask for reachability.
* The tab fix can create clang-format guards that were not there (`Style.GuardCanAppear`); the second check
  is clean all the same (`Style.FixedFileIsClean`).
* At a draw of 0 the sampler gives half the first value when the first probability is 0; monotonicity and
  range hold there too (`Cdf.SamplingIsMonotone`).

## Assumptions

* Node ids are container indices, every node is a host (type 0) or a switch of type 1, and links are up in
  both directions, as `main` arranges. Bandwidths are positive and, like delays, below 2^64.
* The C++ maps are keyed by node pointers: loops over them follow the order of the addresses, which the model
  keeps arbitrary but fixed (`pointerOrder`).
* There is at least one worker, and running a job returns.
* The random draw of the sampler is a parameter in [0, 1]. Reals are exact.
* The first start time of a flow file is not negative: the simulator accepts no negative delay.

## Model

| member | source | states |
|---|---|---|
| Routes.DistanceIsShortest | examples/Reverie/test-parallel.cc:160-184 | `dis` holds exactly the nodes with a path to the host over up links whose inner nodes are switches, each at the length of the shortest such path |
| Routes.HopsAreNearer | examples/PowerTCP/powertcp-evaluation-burst.cc:253-276 | `nextHop[v][host]` lists, without duplicates, exactly the up-neighbours that are the host or a reached switch and are one hop nearer |
| Routes.HopsAreFirstSteps | examples/Reverie/test-parallel.cc:179-182 | said without the search: the next hops are exactly the second nodes of the shortest paths |
| Routes.HopsNonEmpty | examples/Reverie/test-parallel.cc:272 | a node has a next hop exactly if it is reached and is not the host |
| Routes.PotentialIsDistance | examples/Reverie/test-parallel.cc:160-184 | any function with the local properties of a distance is the recorded distance |
| Bfs.RouteInv | examples/Reverie/test-parallel.cc:153-184 | the search ends with its whole invariant: levels in queue order, all links of queued nodes closed, predecessor tree, exact next hops |
| Metrics.MetricsOfOneShortestPath | examples/Reverie/test-parallel.cc:170-174 | the predecessor chain is a shortest path, and on this one path `delay` is the sum of delays, `txDelay` the sum over its links of the payload's transmission time, written out as `payload * 8000000000` (modulo 2^64) divided by the bandwidth, and `bw` the least bandwidth |
| Metrics.TxTimeIs | examples/Reverie/test-parallel.cc:173 | the time `t` added for one link is the quotient: with `b` the bits times 10^9, modulo 2^64, `t * bw <= b < (t + 1) * bw` |
| Metrics.TransmissionTimeExact | examples/Reverie/test-parallel.cc:173 | as long as `payload * 8 * 10^9` fits 64 bits, that is `t * bw <= payload * 8 * 10^9 < (t + 1) * bw` |
| Trace.TracesAreShortestPaths | examples/Reverie/test-parallel.cc:265-294 | over all hash functions, the node sequences of traces to a reachable host are exactly the shortest paths |
| Trace.TraceLoopFree | examples/Reverie/test-parallel.cc:269-283 | every trace is loop-free, has `dis` hops and ends in `(dst, 0)` |
| Trace.TracePorts | examples/Reverie/test-parallel.cc:276-281 | each hop crosses an up link and names the interface of that link |
| Trace.TraceChoices | examples/Reverie/test-parallel.cc:270-283 | a trace of more than one pair starts at the source, and after each node goes on to the one its hash picks, modulo the number of next hops |
| Trace.TraceUnreachable | examples/Reverie/test-parallel.cc:272-283 | only the final pair is returned exactly if the source is the destination, the destination is a switch or it is unreachable |
| LinkDown.TakeDownEffect | examples/PowerTCP/powertcp-evaluation-burst.cc:319-323 | exactly the links between the two nodes go down, all others keep their figures |
| LinkDown.TakeDownAllIsWithout | examples/PowerTCP/powertcp-evaluation-burst.cc:319-323 | any sequence of calls leaves the up links of the graph with these links deleted |
| LinkDown.NextHopsAfterDowns | examples/PowerTCP/powertcp-evaluation-burst.cc:285-343 | after any sequence of failures the next hops of the graph are those of the graph without the links, and none is across a downed link; `Simulator.Sim.TakeDownLinks` states it of the `nextHop` field |
| LinkDown.TracesAfterDowns | examples/PowerTCP/powertcp-evaluation-burst.cc:318-343 | forwarding after any sequence of calls takes loop-free shortest paths of the remaining graph over links never taken down |
| LinkDown.RouteSame | examples/PowerTCP/powertcp-evaluation-burst.cc:238-283 | the search depends on the up links only |
| Tables.TablesAfterDowns | examples/PowerTCP/powertcp-evaluation-burst.cc:318-343 | after any sequence of failures the tables determined by the graph are those of the graph without the links; `Simulator.Sim.TakeDownLinks` states it of the installed tables |
| Tables.TableLists | examples/PowerTCP/powertcp-evaluation-burst.cc:293-316 | below 2^24 nodes, the table of a node holds under a host's address exactly the interfaces of its next hops towards that host |
| Tables.RoutedSame | examples/PowerTCP/powertcp-evaluation-burst.cc:320-321 | a call that returns early leaves next hops and tables right |
| Simulator.CheckPathIntersection | examples/Reverie/test-parallel.cc:295-308 | true exactly if the two paths share a (node, port) pair |
| Ports.IntersectionIsSharedLink | examples/Reverie/test-parallel.cc:295-308 | for the traces of two flows it is true exactly if they cross a common link in the same direction or end at the same node |
| Ports.TablePortsDistinct | examples/Reverie/test-parallel.cc:228-236 | the interfaces listed for a host in a table are pairwise distinct, so each names one next hop |
| Ports.NumberedDown | examples/PowerTCP/powertcp-evaluation-burst.cc:322-323 | taking a link down keeps the interface numbers distinct |
| Simulator.Sim.VisitKey | examples/Reverie/test-parallel.cc:163-183 | one turn of the inner loop, on the local maps and on `nextHop` |
| Simulator.Sim.CalculateRoute | examples/Reverie/test-parallel.cc:144-206 | appends the host's next hops to `nextHop` and records the three figures of every reached node |
| Simulator.Sim.CalculateRoutes | examples/Reverie/test-parallel.cc:208-214 | does so for every host, in order: `nextHop` and the pair tables hold exactly the results of the hosts' searches, and every other pair entry is as it was |
| Simulator.Sim.SetRoutingEntries | examples/Reverie/test-parallel.cc:216-237 | appends to every table, per address, the interfaces of the next hops of all destinations with that address |
| Simulator.Sim.SetUpRouting | examples/Reverie/test-parallel.cc:857-859 | from empty state, `nextHop` and the tables are those the graph determines |
| Simulator.Sim.TakeDownLink | examples/PowerTCP/powertcp-evaluation-burst.cc:318-343 | keeps `nextHop` and the tables those of the graph as it then is |
| Simulator.Sim.TakeDownLinks | examples/PowerTCP/powertcp-evaluation-burst.cc:318-343 | after any sequence of calls, `nextHop` and the installed tables are those of the graph that never had these links |
| Simulator.Sim.TraceActualPath | examples/Reverie/test-parallel.cc:265-294 | returns the walk of the flow's own hash, inserting only empty lists into `nextHop` |
| Addresses.IpRoundTrip | examples/PowerTCP/powertcp-evaluation-burst.cc:170-176 | the id is recovered modulo 2^16, so exactly for ids below 65536 |
| Addresses.AddressesCollide | examples/PowerTCP/powertcp-evaluation-burst.cc:170-172 | two ids share an address exactly if they agree modulo 2^24 |
| Addresses.IpIsShiftedId | examples/PowerTCP/powertcp-evaluation-burst.cc:170-172 | the address is 0x0b000001 plus the id times 256, in 32 bits |
| Addresses.KeyHoldsTableAddress | examples/Reverie/kira_functions.cc:59-60 | the address put into the hash key is the one `node_id_to_ip` computes |
| Addresses.KeyBytes | examples/Reverie/kira_functions.cc:55-61 | the twelve bytes of a flow's key: source address, destination address, source port, destination port, each the lowest byte first |
| EcmpHash.EcmpHash | examples/Reverie/kira_functions.cc:64-100 | the two loops and the final rounds compute the hash, for keys of any length |
| EcmpHash.HashIs | examples/Reverie/kira_functions.cc:64-100 | for a key of any length and any seed, every intermediate value of the hash, related to the one before by the source's own `*`, `^`, `+`, shifts and constants, with the tail and the length |
| EcmpHash.HashOfTwelve | examples/Reverie/kira_functions.cc:64-100 | so for a flow's twelve bytes: three rounds on the three words, then the last statements with length 12 |
| EcmpHash.SeedBijection | examples/Reverie/kira_functions.cc:64-100 | for any fixed key the hash is a bijection of the seed, with the inverse given |
| EcmpHash.WordBijection | examples/Reverie/kira_functions.cc:64-100 | with the rest fixed it is a bijection of each 32-bit word of the key |
| EcmpHash.ScrambleInverse | examples/Reverie/kira_functions.cc:71-73 | the scrambling of a word can be undone |
| EcmpHash.SpreadInverse | examples/Reverie/kira_functions.cc:75-76 | so can the spreading of the state |
| EcmpHash.FinishInverse | examples/Reverie/kira_functions.cc:93-98 | and the final rounds |
| EcmpHash.GetFlowHash | examples/Reverie/kira_functions.cc:54-63 | hashes the two addresses and the ports, seeded by the node |
| EcmpHash.FlowsDoNotCollide | examples/Reverie/kira_functions.cc:54-63 | flows between the same nodes hash alike at a switch only if their ports agree |
| EcmpHash.EndsDoNotCollide | examples/Reverie/kira_functions.cc:54-63 | replacing one end of a flow keeps its hash exactly if the two nodes agree modulo 2^24, so share an address |
| EcmpHash.SwitchesDoNotCollide | examples/Reverie/kira_functions.cc:54-63 | one flow hashes differently at any two switches |
| LeafSpine.Generate | examples/Reverie/generate_topology_leafspine.py:16-37 | the printed counts and rates, switch ids and links, each by its position and with all its figures |
| LeafSpine.CountsRecovered | examples/Reverie/test-parallel.cc:661-666 | the parsed counts are the generator's sizes, with one link per ToR-spine pair |
| LeafSpine.CablesAreLinks | examples/Reverie/generate_topology_leafspine.py:28-37 | the printed links are exactly server-to-own-ToR and ToR-to-every-spine |
| LeafSpine.FiguresOfLink | examples/Reverie/generate_topology_leafspine.py:28-37 | rate, delay and error rate of every printed link, by the ids of its ends |
| LeafSpine.BuildGraph | examples/Reverie/test-parallel.cc:674-806 | the graph holds an interface between two nodes exactly if a link line joins them, with the figures of the last such line and the number of the device that line added |
| LeafSpine.InterfacesDistinct | examples/Reverie/test-parallel.cc:789-797 | the interfaces of a node are numbered from 1 on and pairwise distinct, even if the file links a pair more than once |
| LeafSpine.GeneratedPorts | examples/Reverie/test-parallel.cc:789-797 | on the generated file every interface number in closed form, by ToR, server and spine |
| LeafSpine.GeneratedInRange | examples/Reverie/generate_topology_leafspine.py:23-37 | the generated file names only nodes it declares, as building the graph needs |
| LeafSpine.GeneratedGraph | examples/Reverie/test-parallel.cc:734-806 | on the generated file the up links are the cables in both directions and the hosts are the servers |
| LeafSpine.GeneratedFigures | examples/Reverie/test-parallel.cc:789-797 | in the graph built from it, a link with a server at an end has the servers' rate and delay, any other the spines' |
| LeafSpineRoutes.MainBuildsLeafSpine | examples/Reverie/test-parallel.cc:661-806 | what `main` builds from the generated file meets all assumptions of the routing proofs, with the interfaces numbered as above |
| LeafSpineRoutes.ServerDistance | examples/Reverie/test-parallel.cc:160-184 | every node's hop count to a server, in closed form; 2 between servers of one ToR, 4 across |
| LeafSpineRoutes.TorHopsAreSpines | examples/Reverie/test-parallel.cc:179-182 | a ToR's next hops to a server of another ToR are all spines, once each |
| LeafSpineRoutes.FlowHops | examples/Reverie/test-parallel.cc:340-343 | for any hash, the hops written for a flow are the shared ToR, or source ToR, a spine and destination ToR |
| LeafSpineRoutes.FlowHopsAndPorts | examples/Reverie/test-parallel.cc:340-343 | the (node, port) pairs written for a flow, in full but for the choice of the spine |
| LeafSpineRoutes.TraceOnLeafSpine | examples/Reverie/test-parallel.cc:657-862 | from the generator's sizes through graph, search and tables to the trace of a flow under its own hash: exactly these 1 or 3 pairs between its ends |
| WorkerPool.InvStep | test.py:987-1055 | every step of main, of a worker or of the interrupt keeps the invariant: each job in exactly one place, breaks conserved, jobs before breaks |
| WorkerPool.AlwaysInv | test.py:987-1055 | it holds in every state of every run |
| WorkerPool.NoWorkerExitsEarly | test.py:994-995 | in every run, once a worker has returned no real job is queued |
| WorkerPool.NeverStuck | test.py:1719-1720 | in every reachable state before the end some thread can go on |
| WorkerPool.RunsAreBounded | test.py:987-1055 | no run is longer than 6 jobs + 4 workers + 5 steps, interrupted or not |
| WorkerPool.DoneMeansAllCollected | test.py:1858-1859 | at the end all workers have returned, both queues are empty and every job was collected exactly once |
| JobFates.Decision | test.py:1001-1012 | a worker that has taken a job breaks it if the flag is up, passes it on if it is to be skipped, and otherwise runs it |
| JobFates.CollectedWasDecided | test.py:987-1055 | in every run, each collected report was decided by a step that saw the flag as the report says, and no unbroken report of a job that is not skipped is collected unless a worker ran the job |
| JobFates.BrokenIffInterrupted | test.py:1001-1004 | at the end, the report of a job is broken exactly if the flag was up when its worker decided |
| TestSummary.Tally | test.py:1720-1753 | one report is counted under its outcome, a broken one under none |
| TestSummary.CollectResults | test.py:1712-1753 | the loop's counters and sorted name lists are those of the collected reports |
| TestSummary.SummaryByJobs | test.py:1720-1753 | each counter is the number of unbroken reports whose job is to be skipped, or has return code 0, 1, 2 or another; each name list holds exactly the names at these reports, a skipped one with its reason |
| TestSummary.LexLeqIs | test.py:1878-1889 | the order of the lists: by the first character that differs, a proper prefix first |
| TestSummary.OutcomesAddUp | test.py:1712-1753 | the counts of the six outcomes add up to the number of reports |
| TestSummary.StatusIsZeroIffAllGood | test.py:1942-1945 | after any run, interrupted or not, the counts add up to the number of tests and the status is 0 exactly if no job was broken and every job passed or was skipped |
| TestSummary.CollectedIsPermutation | test.py:1719-1720 | without an interrupt the collected reports are those of a sequential run in some order |
| TestSummary.AgreesWithSequentialRun | test.py:1712-1759 | so counters, sorted name lists and status are those of a sequential run |
| TestSummary.StoppedMeansDone | test.py:987-1055 | a run no thread can continue has finished |
| TestSummary.FinishedRun | test.py:1858-1889 | for every run from the initial state: without an interrupt the summary of a sequential run; in any case the status is 0 exactly if every job was decided before an interrupt and was then skipped, or really run with return code 0, and otherwise 1 |
| TestSummary.SortSorts | test.py:1878-1889 | sorting the name lists keeps their names and orders them |
| DependencyOrder.ModulesThatCanBeLoaded | bindings/python/ns__init__.py:394-405 | selects, in order, the pending modules all of whose dependencies are loaded |
| DependencyOrder.Sorter.LoadStep | bindings/python/ns__init__.py:412-415 | moves the modules of one step from pending to loaded |
| DependencyOrder.Sorter.DependencyOrder | bindings/python/ns__init__.py:407-416 | the recursion fills the steps one level at a time until nothing is pending |
| DependencyOrder.SortToDependencies | bindings/python/ns__init__.py:385-421 | for any closed acyclic relation, the returned list holds every module once, each after all its dependencies, and is the concatenation of the levels |
| DependencyOrder.LoadableIsStep | bindings/python/ns__init__.py:394-405 | what can be loaded after k steps is exactly level k |
| DependencyOrder.LoadedIsPermutation | bindings/python/ns__init__.py:418-421 | the result lists every module exactly once |
| DependencyOrder.DependenciesFirst | bindings/python/ns__init__.py:384-385 | each module comes after all its dependencies |
| DependencyOrder.StepIsHeight | bindings/python/ns__init__.py:407-416 | step k holds exactly the modules whose longest dependency chain has k links |
| DependencyOrder.TerminatesIffAcyclic | bindings/python/ns__init__.py:407-416 | the recursion ends exactly for closed acyclic relations, then within as many steps as there are modules |
| Gather.StaticInformation.GetCurrentPath | utils/print-introspected-doxygen.cc:360-370 | joins the path components |
| Gather.StaticInformation.HasAlreadyBeenProcessed | utils/print-introspected-doxygen.cc:379-391 | whether the type is on the ancestor stack |
| Gather.StaticInformation.RecordOutput | utils/print-introspected-doxygen.cc:372-377 | appends the type with the current path |
| Gather.StaticInformation.DoGather | utils/print-introspected-doxygen.cc:447-532 | terminates, restores both stacks and appends what the recursive specification gathers |
| Gather.EdgesAre | utils/print-introspected-doxygen.cc:456-531 | an edge leads through an attribute that points to a type other than the plain Object, through a container attribute with `/[i]` added, to a registered child with `$` put before it, or along an aggregation in either direction; no other does |
| Gather.PathStringIs | utils/print-introspected-doxygen.cc:360-370 | a path's text puts a slash before each component, in order |
| Gather.WalksExact | utils/print-introspected-doxygen.cc:447-532 | the walks taken are exactly those that repeat no type and avoid the ancestors |
| Gather.WalksOnce | utils/print-introspected-doxygen.cc:447-532 | each is taken once |
| Gather.GatheredIsWalks | utils/print-introspected-doxygen.cc:455 | each appends one entry: the type it ends in and the path of its labels |
| Gather.GatherListsSimpleWalks | utils/print-introspected-doxygen.cc:439-445 | from the root: one entry per walk that repeats no type, and no other |
| Cdf.SamplingIsMonotone | examples/ABM/cdf.c:143-179 | a larger draw never gives a smaller sample; samples stay within 0 and the last value |
| Cdf.SampleOnLine | examples/ABM/cdf.c:143-179 | the sample lies on the segment that leads to the first entry the draw does not exceed, in its middle if it is vertical, from the origin if it is the first; beyond all entries it is the last value |
| Cdf.IntegralBounds | examples/ABM/cdf.c:81-109 | between any two draws, the area lies between the rectangles on the two samples |
| Cdf.MeanBetweenSums | examples/ABM/cdf.c:81-109 | for every partition of [0,1] the mean lies between the lower and the upper Riemann sum of the sampler |
| Cdf.MeanIsTheIntegral | examples/ABM/cdf.c:81-109 | it is the only number that does |
| Cdf.VarianceIsNotNegative | examples/ABM/cdf.c:112-140 | the variance is not negative for any values with rising probabilities in [0,1] |
| Cdf.VarianceIsSpread | examples/ABM/cdf.c:112-140 | once the probabilities add up to one, the returned difference is the sum of `(middle - mean) * (middle - mean) * probability` over the segments |
| Cdf.VarianceIsZero | examples/ABM/cdf.c:112-140 | with rising probabilities up to one it is zero exactly if every segment with any probability has its middle at the mean |
| Cdf.CdfTable.constructor | examples/ABM/cdf.c:4-17 | an empty table of 32 slots, range 0 to 1 |
| Cdf.CdfTable.LoadCdf | examples/ABM/cdf.c:27-66 | appends all entries, keeps the earlier ones, at most doubles what is needed, and tracks least and greatest probability |
| Cdf.CdfTable.LoadLine | examples/ABM/cdf.c:43-63 | one line: grow if full, store, widen the range |
| Cdf.CdfTable.Resize | examples/ABM/cdf.c:46-53 | twice the slots, the same entries |
| Cdf.CdfTable.AvgCdf | examples/ABM/cdf.c:81-109 | the loop computes the mean |
| Cdf.CdfTable.VarCdf | examples/ABM/cdf.c:112-140 | the loop computes the variance, not negative for rising probabilities |
| Cdf.CdfTable.GenRandomCdf | examples/ABM/cdf.c:158-179 | the loop finds the first entry the draw does not exceed and interpolates |
| Cdf.SampleFile | examples/ABM/cdf.c:152-179 | on a fresh table loaded with a distribution every draw is looked up as it is and gives a value in range |
| Welford.Accumulate | utils/bench-scheduler.cc:357-361 | one accumulation step of one field |
| Welford.AccumulateAll | utils/bench-scheduler.cc:363-368 | the six fields of a result are accumulated, each into its own place |
| Welford.TracksNext | utils/bench-scheduler.cc:357-361 | the step keeps average and second moment exact |
| Welford.BenchSuite.Log | utils/bench-scheduler.cc:332-385 | nothing for fewer than two results; else each field's exact mean, and as deviation the number that is not negative and whose square is the mean squared distance from it |
| Welford.MeanIsLeast | utils/bench-scheduler.cc:346-372 | no other point has a smaller sum of squared deviations |
| Style.SplitJoin | utils/check-style-clang-format.py:569-570 | reading back written lines gives the same lines |
| Style.UniversalEnds | utils/check-style-clang-format.py:569-570 | each of the three line endings is read as one newline |
| Style.RStripCuts | utils/check-style-clang-format.py:574 | stripping removes exactly the longest whitespace suffix |
| Style.ExpandChars | utils/check-style-clang-format.py:702 | expansion removes all tabs, brings in only spaces and leaves tab-free lines alone |
| Style.TabStops | utils/check-style-clang-format.py:702 | a tab becomes the one to four spaces that lead to the next column that is a multiple of four |
| Style.GuardKept | utils/check-style-clang-format.py:686-691 | a guard line is the same guard after expansion |
| Style.EnabledIs | utils/check-style-clang-format.py:683-695 | clang-format is enabled after a line exactly if no line so far says off without a later one that says on |
| Style.EnabledWasEnabled | utils/check-style-clang-format.py:683-695 | where the second check finds clang-format enabled, the fix did too |
| Style.TabsGone | utils/check-style-clang-format.py:683-713 | no tab is reported on fixed lines, even where the fix created a guard |
| Style.TabsChange | utils/check-style-clang-format.py:698-702 | the tab fix changes the lines exactly if the check reports a tab |
| Style.SpacesChange | utils/check-style-clang-format.py:574-578 | likewise for whitespace |
| Style.FixesCommute | utils/check-style-clang-format.py:340-358 | the two fixes commute on any lines |
| Style.FixedFileIsClean | utils/check-style-clang-format.py:340-358 | after both fixes both checks are clean and both fixes leave the file alone |
| Style.FixOrderIrrelevant | utils/check-style-clang-format.py:340-358 | either order of the fixes gives the same file |
| Style.GuardCanAppear | utils/check-style-clang-format.py:686-702 | a line that is no guard can become one when its tab is expanded |
| Style.CheckTrailingWhitespaceFile | utils/check-style-clang-format.py:566-596 | the flag, the file's new text and the verbose findings, for both modes and with the early exit |
| Style.CheckTabsFile | utils/check-style-clang-format.py:675-720 | likewise for tabs, under the guards |
| Style.FixFile | utils/check-style-clang-format.py:340-358 | the fixing run on one file leaves it clean |
| FlowSchedule.FlowScheduler.constructor | examples/PowerTCP/powertcp-evaluation-burst.cc:1065-1080 | ports of host pairs start at 10000, the first flow waits for its start |
| FlowSchedule.FlowScheduler.ScheduleFlowInputs | examples/PowerTCP/powertcp-evaluation-burst.cc:150-168 | launches every due flow, and schedules the next with a delay that is not negative |
| FlowSchedule.FlowScheduler.Run | examples/PowerTCP/powertcp-evaluation-burst.cc:150-168 | the events end, with exactly the specified launches |
| FlowSchedule.LaunchedInOrder | examples/PowerTCP/powertcp-evaluation-burst.cc:150-161 | every flow is launched once, in file order |
| FlowSchedule.PortOfLaunch | examples/PowerTCP/powertcp-evaluation-burst.cc:152 | the i-th launch is flow i, and the k-th flow between two hosts gets port 10000 + k, in 16 bits; between other nodes k |
| FlowSchedule.LatestIsMaximum | examples/PowerTCP/powertcp-evaluation-burst.cc:151 | at the maximum start time up to it |
| FlowSchedule.PortsRepeat | examples/PowerTCP/powertcp-evaluation-burst.cc:152 | two flows of a pair get the same port exactly if the flows of that pair in between number a multiple of 65536 |
| FlowSchedule.PortsDistinct | examples/PowerTCP/powertcp-evaluation-burst.cc:152 | so none repeats while no pair has more than 65536 flows |

## Left out

- ns-3 itself (simulator core, devices, RDMA and TCP congestion control, buffers, switch pipeline): its behaviour is not part of this model. Of `TakeDownLink`, taking the devices down and redistributing queue pairs are left out.
- `pairDelay`, `pairTxDelay` and `pairBw` after a failure: the source does not clear them, so only `nextHop` and the tables are claimed.
- The reconstruction of a path per host at the end of `CalculateRoute` (test-parallel.cc:185-199), which has no effect, and everything printed.
- Interface numbers: a device's index is modelled as the count of its node's devices after the loopback.
- Topology files that make the unsigned counts wrap; what a link's error rate does to packets.
- LeafSpineRoutes.MainBuildsLeafSpine: asks for at most 2^32 nodes, the range of node ids.
- WorkerPool.AlwaysInv: one step is one queue operation, one test of the flag or one job run; finer interleavings inside a queue operation are not modelled.
- The dispatch code of test.py before the queue (which suites and examples are chosen), the XML report and the printed progress counter, which omits valgrind errors.
- DependencyOrder.Sorter.DependencyOrder: takes a bound on the number of steps that the source does not have; `DependencyOrder.TerminatesIffAcyclic` says exactly when one exists.
- `StaticInformation::Gather` passes its output to `Uniquefy` by value, so nothing is claimed about duplicates; the child relation of types is a parameter.
- Cdf.CdfTable.LoadCdf: takes the entries of the lines; malformed lines (which leave an entry unset) and allocation failure are not modelled.
- Welford.BenchSuite.Log: the square root is a parameter with the property of a square root; the printed table is left out.
- Floating-point rounding in cdf.c and bench-scheduler.cc: the model computes with exact reals.
- Decoding errors of the style checker's files, its message texts (a finding is its line and column) and the clang-format check.
- Style.CheckTabsFile: strings are sequences of code points; what counts as whitespace is written out from Python's `str.strip`.
- FlowSchedule.FlowScheduler.constructor: start times are whole simulator ticks, the rounding of seconds to ticks is not modelled; the port table is one map keyed by pairs of 32-bit ids instead of nested maps.
- The other copies of cdf.c and of the routing code, the fairness and workload variants, configuration reading, plotting and user interfaces.
