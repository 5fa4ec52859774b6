# Verified models of an RDMA network-diagnosis prototype

This project models, in Dafny, the self-contained algorithms and step machines of the repository: the routing of
its ns-3 driver, the graph utilities and the test runner bundled with the simulator, the congestion-control agent of
the NIC, the queue replay behind the provenance graph, the patch and shell helpers, and the controller's polling
table and register hand-over. `dafny verify dfyconfig.toml` checks everything.

| file | what it models |
|---|---|
| `Wrappers.dfy`, `Lists.dfy`, `Powers.dfy` | optional values, lists without repetition, powers of two |
| `Digraph.dfy`, `Rotation.dfy` | walks and cycles, rotations |
| `Topsort.dfy` | the flat and the levelled topological sort |
| `FindCycles.dfy` | the enumeration of elementary cycles |
| `RouteGraph.dfy`, `Routing.dfy`, `Simulation.dfy` | shortest routes, the breadth-first search, the global tables and link failure |
| `WorkerPool.dfy` | main thread, workers, queues, stop jobs and an interrupt |
| `FlowTable.dfy`, `RttController.dfy`, `RttProperties.dfy` | the flow table, the event handlers, what holds over all event sequences |
| `PacketQueue.dfy` | fair merge, wait-for counts, rounded weights, degrees |
| `ShellParser.dfy`, `ShellAssignments.dfy`, `ShellMeaning.dfy`, `ShellDirectories.dfy`, `ShellPipeline.dfy` | the command-line grammar, what an assignment sets, the meaning of a line, where `cd` leads, the class that parses and runs a line |
| `ShellWiring.dfy` | how the processes of a line are connected, read off the trace of a run |
| `PatchText.dfy`, `PatchRoundTrip.dfy`, `PatchSet.dfy` | patch sets as text, the round trip, the parser's objects |
| `PollingTable.dfy`, `PollingLookup.dfy` | generator and installer of the polling table, its answers |
| `RegisterSync.dfy` | the mutex and condition hand-over of a register snapshot |
| `BinaryRange.dfy` | binary numerals |

Code that changes state step by step is modelled by methods with loops and by classes whose methods assign fields;
each is proved against a specification on values, and the promises are lemmas about that specification. The two
protocols (worker pool, register hand-over) are state machines: every interleaving is a run.

Where the code does not do what it promises on all inputs, the model keeps the code and states the exact condition:

* `cd` without a directory, or a line that ends in `cd`, makes some run of a pipeline raise
  (`ShellPipeline.RaisesExactlyWhen`); evaluation nests to the right, which is what a POSIX shell does exactly on
  lines that do not mix `&&` and `||` (`ShellMeaning.PosixExactlyWhenUniform`).
* A redirection sign at the very end of a command line is accepted and forgotten (`Script.Final`, field `dangling`).
* The polling list is passed with an 8-bit count, so a list of 256 entries or more is cut, and without any
  forwarding rule the first port entry finds no action to fill (`PollingLookup.AnswersExactlyWhenShort`).
* A patch set survives printing and parsing exactly when it is plain (`PatchRoundTrip.RoundTripExactlyWhenPlain`).
* Across a wrap of the 32-bit clock the measured time is one too small (`RttProperties.ElapsedIsTrue`), and one
  nanosecond beyond 300000 * 2^13 the back-off statement fails because the shifted threshold wraps
  (`RttProperties.LimitIsSharp`).
* An update factor may be configured up to 655360, but above 13107 the factor 2^16 - 5 * UPDATE_FACTOR of the NACK
  branch wraps, and a late measurement can raise the rate to the maximum (`RttProperties.DecreasesExactlyWhen`,
  `RttProperties.LateMeasurementRaises`); above 32768 the factor of the CNP branch wraps too
  (`RttProperties.PaysExactlyWhen`).
* With jobs but no worker thread the test runner never returns (`WorkerPool.NobodyToRunThem`).
* `int2bin` with width zero never refuses a value, and `binary_range(0)` is empty although there is one string of
  width zero (`BinaryRange.Int2BinIsNumeral`, `BinaryRange.BinaryRange`).

## Model

| member | source | states |
|---|---|---|
| Topsort.BuildTables | simulation/bindings/python/topsort.py:77-90 | the counting tables hold, for every node of the pairs and with repetitions, how many pairs end at it and which nodes they lead to |
| Topsort.Drain | simulation/bindings/python/topsort.py:97-106 | the growing answer list releases nodes parents first and stops only when every node left still waits for a node left |
| Topsort.Sort | simulation/bindings/python/topsort.py:77-112 | sorted if and only if the pairs have no directed cycle (repeated pairs and self-loops included); the answer then lists every node once with each parent before its children, and a CycleError carries what is left |
| Topsort.SortLevels | simulation/bindings/python/topsort.py:157-232 | level k holds exactly the nodes whose longest chain of pairs has length k; StopIteration if and only if acyclic, and then the levels are complete and their concatenation is a topological order |
| Topsort.ConcatIsOrdered | simulation/bindings/python/topsort.py:203-224 | levels of nodes by the length of their longest chain concatenate to a list without repetition in which every pair leads forward |
| Topsort.SourcesAreLevel | simulation/bindings/python/topsort.py:205-212 | the nodes without a remaining parent are exactly those whose longest chain has the length of the round |
| Topsort.LevelsComplete | simulation/bindings/python/topsort.py:226-232 | once every node left waits for a node left, every node that has a longest chain of pairs is in a level already |
| Topsort.FewestLevels | simulation/bindings/python/topsort.py:203-224 | no layering that respects the pairs has fewer levels |
| Topsort.EndlessChains | simulation/bindings/python/topsort.py:226-229 | where every remaining node has a remaining parent there are chains of every length |
| Digraph.NoSourceMeansCycle | simulation/bindings/python/topsort.py:108-111 | nodes left over that all have a parent among themselves contain a directed cycle |
| Digraph.OrderMeansAcyclic | simulation/bindings/python/topsort.py:112 | a topological order rules out every directed cycle |
| Rotation.IsRotated | simulation/bindings/python/rad_util.py:735-775 | true exactly for rotations, with the index error of two empty lists |
| Rotation.RotationSymmetric | simulation/bindings/python/rad_util.py:735-775 | being a rotation is symmetric |
| Rotation.RotationTransitive | simulation/bindings/python/rad_util.py:735-775 | being a rotation is transitive |
| FindCycles.AddCycle | simulation/bindings/python/topsort.py:369-378 | a cycle joins the list unless it is a rotation of one that is there |
| FindCycles.Explore | simulation/bindings/python/topsort.py:351-385 | exploring the stack of simple paths from one root terminates, lists only elementary cycles, none twice up to rotation, and every one that a simple path from the root closes; it marks as visited only what the root reaches |
| FindCycles.AroundTheCycle | simulation/bindings/python/topsort.py:362-385 | a simple path that first meets a cycle at its end can be continued around it, and then closes exactly this cycle |
| FindCycles.CycleFound | simulation/bindings/python/topsort.py:367-378 | a cycle that a simple path from an explored root ends on is listed, up to rotation |
| FindCycles.NothingMissed | simulation/bindings/python/topsort.py:346-349 | if every key was reached from some explored root, then skipping the visited ones has lost no cycle |
| FindCycles.FindCycles | simulation/bindings/python/topsort.py:343-385 | terminates with exactly the elementary cycles, no two of them rotations of each other |
| RouteGraph.ForwardingArrives | simulation/scratch/third.cc:438-443 | whatever next hops are chosen, a packet makes exactly as many hops as its distance and ends at the host and nowhere else |
| RouteGraph.ForwardingIsLoopFree | simulation/scratch/third.cc:438-443 | it meets no node twice, passes only switches and uses only up links |
| RouteGraph.NextHopExists | simulation/scratch/third.cc:438-443 | a node at positive distance has a next hop that is one hop closer |
| RouteGraph.ReachableHasDistance | simulation/scratch/third.cc:408-445 | a reachable node has a least hop count |
| Routing.Bfs | simulation/scratch/third.cc:408-445 | the loop over the growing queue ends with every reachable node recorded and scanned |
| Routing.SearchIsRight | simulation/scratch/third.cc:415-439 | distances are exactly the shortest hop counts through switches, and delay, transmission delay and bandwidth are those of one and the same shortest route |
| RouteGraph.PathCostIsPlain | simulation/scratch/third.cc:432-434 | what is added up hop by hop along a path is, modulo 2^64, the sum of the link delays and the sum of payload * 8000000000 (modulo 2^64) over the bandwidth, and the least of the bandwidths, 2^64 - 1 where there is no link |
| Routing.HopsAreNextHops | simulation/scratch/third.cc:438-443 | the next hops recorded are exactly the host or reached switches one hop closer over an up link |
| Routing.SearchFrom | simulation/scratch/third.cc:400-445 | distances of exactly the reachable nodes, next-hop lists without duplicates, and for each of them costs that are the sums and the least bandwidth over the links of some shortest route, for every order of the neighbours |
| Routing.AppendRows | simulation/scratch/third.cc:439-443 | the next hops of one search are appended to the rows of the global map and to no other |
| Routing.WriteRows | simulation/scratch/third.cc:446-451 | the costs of one search replace the global entries of this host and no other |
| Routing.RecordedCosts | simulation/scratch/third.cc:432-451 | the recorded costs of a reachable pair are the plain sums of delays and transmission times and the least bandwidth over the links of one and the same shortest route |
| Routing.LinkDownEffect | simulation/scratch/third.cc:524 | taking a link down keeps link state symmetric and changes exactly the two directions of that link |
| Simulation.RoutingState.constructor | simulation/scratch/third.cc:1257-1258 | routes, costs and forwarding tables of a new topology are those of its up links |
| Simulation.RoutingState.CalculateRoute | simulation/scratch/third.cc:400-452 | one search per host, appended to the next hops and written to the three cost tables; afterwards the entries of every reachable node are the sums and the least bandwidth over the links of some shortest route |
| Simulation.RoutingState.CalculateRoutes | simulation/scratch/third.cc:454-464 | from cleared rows the next hops become those of the present links; costs of reachable pairs are current, all others keep what was recorded |
| Simulation.RoutingState.SetRoutingEntries | simulation/scratch/third.cc:467-505 | every table gains exactly one entry for each next hop, in order: the number of the interface that the node has towards it |
| Simulation.RoutingState.ClearTables | simulation/scratch/third.cc:528-533 | the tables of the container become empty and no others change |
| Simulation.RoutingState.TakeDownLink | simulation/scratch/third.cc:508-544 | the state stays valid: next hops, costs and tables are those of the links that are still up; a link that is down already changes nothing |
| Simulation.RoutingState.TakeDownLinks | simulation/scratch/third.cc:1365-1367 | after any number of failures the state is valid for exactly the links that were up and never named |
| Simulation.LinksAfterCalls | simulation/scratch/third.cc:513-524 | after any sequence of calls link state is symmetric and exactly the links that were never named are still up |
| Simulation.PacketsArrive | simulation/scratch/third.cc:473-500 | under the installed next hops every choice reaches the destination in exactly its distance, without loops, through switches, over up links |
| Simulation.InstalledInterfaces | simulation/scratch/third.cc:484-500 | the table of a node towards a host has as many entries as there are next hops, and they are exactly the numbers of the interfaces that lead to one |
| Simulation.SentOnToNextHop | simulation/scratch/third.cc:486 | where interface numbers are distinct at each node, a neighbour is behind an installed interface exactly if it is a next hop |
| Simulation.TablesDeliver | simulation/scratch/third.cc:484-500 | then a packet sent by the tables, whichever entries are used, arrives in exactly its distance without meeting a node twice, and only the host has no entry |
| Simulation.RowNonEmpty | simulation/scratch/third.cc:438-443 | a node has next hops exactly when the destination can be reached from it and is another node |
| WorkerPool.StepKeepsInv | simulation/test.py:921-989 | every step of the main thread, of a worker or of the interrupt keeps each job in exactly one place |
| WorkerPool.RunsAreFinite | simulation/test.py:1313-1316 | no interleaving is longer than 6 jobs + 8 threads + 7 states |
| WorkerPool.NeverStuck | simulation/test.py:1594-1597 | until the main thread returns some thread can move, unless there are jobs and no threads |
| WorkerPool.AllReported | simulation/test.py:921-989 | with no worker busy and every job taken, each job has been reported exactly once |
| WorkerPool.TallyMeaning | simulation/test.py:1590-1619 | the six counters add up to the number of results, and passed plus skipped is all of them exactly if every job was skipped or returned 0 |
| WorkerPool.TallyCounts | simulation/test.py:1590-1619 | each counter is the number of results of its kind, in whatever order they arrive |
| WorkerPool.Outcome | simulation/test.py:1800-1803 | when main has returned: every job was reported once; a result carries the status of the one run of its job unless the job was skipped or interrupted, and then it was not run; every worker has taken one stop job and exited, queues are empty, and the exit code is 0 exactly if every job was skipped without an interrupt or has a run that returned 0 |
| WorkerPool.RunsFinish | simulation/test.py:1736-1737 | a run of the pool that cannot go on has returned with that outcome |
| WorkerPool.RunKeepsOthers | simulation/test.py:957-976 | running a job leaves every other result and every other job as it was |
| WorkerPool.UndisturbedOutcome | simulation/test.py:1800-1803 | without an interrupt every job that is not to be skipped is run exactly once, and the exit code is 0 exactly if all these runs returned 0 |
| WorkerPool.NobodyToRunThem | simulation/test.py:1313-1316 | with jobs and no threads main never returns |
| WorkerPool.QuietRun | simulation/test.py:935-938 | before the interrupt no result is marked as interrupted |
| WorkerPool.InterruptStops | simulation/test.py:935-938 | after the interrupt a job that nobody has begun is never run and is reported as interrupted, even one to be skipped |
| WorkerPool.InterruptedOutcome | simulation/test.py:1800-1803 | an interrupt that leaves a job unbegun makes the exit code 1 |
| FlowTable.Table.Refresh | detection-agent/device/rp/algo/rtt_template.c:75-106 | the array holds the old entries with the slot of the flow rewritten or a slot added, and a full table ignores a new flow |
| FlowTable.TableHoldsFirstFlows | detection-agent/device/rp/algo/rtt_template.c:75-106 | after any refreshes slot k holds the k-th of the first 16 distinct tags with the data of its latest refresh |
| FlowTable.LiveTagsAreDistinct | detection-agent/device/rp/algo/rtt_template.c:79-92 | at most 16 entries, tags pairwise distinct |
| FlowTable.TableRefinesMap | detection-agent/device/rp/algo/rtt_template.c:75-106 | looking a tag up in the table is looking it up in the bounded map of latest values |
| RttController.Flow.AlgorithmCore | detection-agent/device/rp/algo/rtt_template.c:202-245 | the clamped rate of the branch taken, and the flag it consumes |
| RttController.Flow.HandleRoceTx | detection-agent/device/rp/algo/rtt_template.c:257-295 | the fields after a TX event are those of the specification of that event |
| RttController.Flow.HandleRoceRtt | detection-agent/device/rp/algo/rtt_template.c:308-392 | fields and flow table after an RTT event; an unexpected event changes nothing |
| RttController.Flow.TakeMeasurement | detection-agent/device/rp/algo/rtt_template.c:322-391 | the fields after a measurement that was waited for |
| RttController.Flow.HandleNewFlow | detection-agent/device/rp/algo/rtt_template.c:452-466 | the initial context of a flow |
| RttController.Flow.Algo | detection-agent/device/rp/algo/rtt_template.c:468-499 | every event is handled as its specification says and refreshes the table exactly when it is a measurement waited for |
| RttProperties.HandshakeHolds | detection-agent/device/rp/algo/rtt_template.c:257-295 | after any events either no measurement is in flight, the count of TX events is one or two and there is no back-off, or one measurement is under way and the count is at most one |
| RttProperties.RequestIsRecent | detection-agent/device/rp/algo/rtt_template.c:257-295 | unless a measurement is under way a request has been made, and at most one TX event has passed since |
| RttProperties.AskedAgainExactlyWhenLate | detection-agent/device/rp/algo/rtt_template.c:282-288 | a measurement under way for at most 300000 * 2^13 ns is asked for again at exactly those TX events that come more than 300000 * 2^a ns after its start, one ns later across a wrap, a being the back-off count, which then rises by one |
| RttProperties.TwoTxEventsSuffice | detection-agent/device/rp/algo/rtt_template.c:278-288 | two consecutive TX events include a sent request or ask for a new one |
| RttProperties.BackOffHolds | detection-agent/device/rp/algo/rtt_template.c:272-288 | while a measurement is at most 300000 * 2^13 ns old, a back-off count a >= 1 means that more than 300000 * 2^(a-1) ns have passed, across clock wraps |
| RttProperties.LimitIsSharp | detection-agent/device/rp/algo/rtt_template.c:282-286 | one nanosecond later the statement fails: a new flow whose first measurement stays unanswered counts to 15 in as many TX events although 300000 * 2^14 ns have not passed |
| RttProperties.ElapsedIsTrue | detection-agent/device/rp/algo/rtt_template.c:273-276 | the computed time is the true one, less one if the clock wrapped |
| RttProperties.RateStaysInRange | detection-agent/device/rp/algo/rtt_template.c:237-241 | after every event the rate lies between its bounds and is the one reported, whatever the update factor |
| RttProperties.GoodRttsIncrease | detection-agent/device/rp/algo/rtt_template.c:220-234 | n measurements at or below BASE_RTT give exactly min(MAX, r + n AI), whatever events but a CNP come in between, if MAX + AI fits 32 bits |
| RttProperties.NotificationCountsOnce | detection-agent/device/rp/algo/rtt_template.c:212-241 | behind a CNP, n measurements at or below BASE_RTT give exactly min(MAX, max(MIN_RATE, (2^16 - 2 UPDATE_FACTOR) r / 2^16) + (n - 1) AI) for n >= 1, whatever events but a further CNP come in between, if 2 UPDATE_FACTOR is at most 2^16 and MAX + AI fits 32 bits; the first of them consumes the CNP |
| RttProperties.NackCountsOnce | detection-agent/device/rp/algo/rtt_template.c:212-241 | behind a NACK, the first measurement of at least MAX_DELAY multiplies by 2^16 - 5 UPDATE_FACTOR and each further one by 2^16 - 2 UPDATE_FACTOR over 2^16, rounded down and bounded by MIN_RATE, whatever but a NACK comes in between, if 5 UPDATE_FACTOR is at most 2^16 |
| RttProperties.SlowRttsDecrease | detection-agent/device/rp/algo/rtt_template.c:220-223 | without a CNP each measurement between BASE_RTT and MAX_DELAY multiplies by 2^16 - UPDATE_FACTOR over 2^16 in the same way |
| RttProperties.HighUtilDoubles | detection-agent/device/rp/algo/rtt_template.c:214-223 | in high utilisation each measurement acts as with twice the factor |
| RttProperties.IncreaseExactlyWhenItFits | detection-agent/device/rp/algo/rtt_template.c:233-241 | one such measurement gives min(MAX, r + AI) exactly when r + AI fits 32 bits |
| RttProperties.ConfiguredIncrease | detection-agent/device/rp/algo/rtt_template.c:133-137 | no increment up to AI_MAX wraps |
| RttProperties.BadRttsDecrease | detection-agent/device/rp/algo/rtt_template.c:212-223 | n measurements above it give at most max(MIN_RATE, r (DEC_FACTOR / 2^16)^n), whatever CNPs and NACKs come in between, if 5 UPDATE_FACTOR is at most 2^16 |
| RttProperties.DecreasesExactlyWhen | detection-agent/device/rp/algo/rtt_template.c:212-241 | for every factor that can be configured: all such measurements, in every state, decrease the rate like that exactly if 5 UPDATE_FACTOR is at most 2^16, or MIN_RATE is the maximum, or no measurement can exceed BASE_RTT |
| RttProperties.PaysExactlyWhen | detection-agent/device/rp/algo/rtt_template.c:216-241 | for every factor that can be configured: all good measurements with a CNP pending give max(MIN_RATE, (2^16 - 2 UPDATE_FACTOR) r / 2^16) exactly if 2 UPDATE_FACTOR is at most 2^16 or MIN_RATE is the maximum |
| RttProperties.LateMeasurementRaises | detection-agent/device/rp/algo/rtt_template.c:212-216 | with factor 13108 a new flow at rate 1000 jumps to the maximum at the first late measurement after a NACK |
| PacketQueue.LeastServed | simulation/mix_deadlock/data/graph.py:21-24 | the first flow that has the least share served |
| PacketQueue.Merge | simulation/mix_deadlock/data/graph.py:20-26 | the merge terminates, flow i appears exactly pktnums[i] times, every packet is of the first flow with the least share so far, and every prefix is fair |
| PacketQueue.MergeIsDetermined | simulation/mix_deadlock/data/graph.py:20-26 | only one list serves every flow in full and each packet in its turn |
| PacketQueue.CountWaits | simulation/mix_deadlock/data/graph.py:28-33 | entry (a, b) counts exactly the pairs of a packet of a and an earlier packet of b within the queue depth of a |
| PacketQueue.RoundsToNearest | simulation/mix_deadlock/data/graph.py:37 | a weight is rounded exactly if no number of tenths is nearer to the quotient |
| PacketQueue.RoundedIsUnique | simulation/mix_deadlock/data/graph.py:37 | only a quotient halfway between two tenths has two rounded values |
| PacketQueue.Round | simulation/mix_deadlock/data/graph.py:37 | the weight is a nearest number of tenths; a quotient halfway between two may go to either, as its binary value does |
| PacketQueue.Degrees | simulation/mix_deadlock/data/graph.py:41-46 | the degrees sum to zero, and for distinct flows each is its column sum minus its row sum |
| PacketQueue.SimPktQueue | simulation/mix_deadlock/data/graph.py:5-46 | nothing without flows, a division error for a flow without packets, otherwise balanced degrees made of the counts over the one merge, each rounded to a nearest tenth |
| ShellParser.StepsAppend | simulation/waf-tools/shellcmd.py:135-198 | reading two runs of tokens one after the other is reading them together |
| ShellParser.CommandExtends | simulation/waf-tools/shellcmd.py:153-198 | a word or redirection more is taken exactly if its stream is not redirected yet |
| ShellParser.ScriptRead | simulation/waf-tools/shellcmd.py:120-200 | every sentence of the grammar is accepted, with the nodes that the grammar assigns |
| ShellParser.AcceptedAtBegin | simulation/waf-tools/shellcmd.py:137-152 | whatever is accepted from the start of a command is a sentence of the grammar |
| ShellParser.ParserIsGrammar | simulation/waf-tools/shellcmd.py:120-200 | accepted if and only if a sentence; each sentence has one reading |
| ShellAssignments.AssignmentReads | simulation/waf-tools/shellcmd.py:23 | a token is an assignment of this value to this key exactly if it is KEY=value with a key of word characters and a value without blanks, one final newline apart |
| ShellAssignments.EnvIsLastWritten | simulation/waf-tools/shellcmd.py:138-152 | a variable has a value exactly if the last assignment to it writes this value |
| ShellPipeline.Pipeline.Parse | simulation/waf-tools/shellcmd.py:120-200 | returns without an assertion exactly on the sentences, and leaves the nodes of the script |
| ShellPipeline.Pipeline.ExecPipedCommands | simulation/waf-tools/shellcmd.py:202-211 | waits for every command in order and returns the status of the last |
| ShellPipeline.Pipeline.StartCommand | simulation/waf-tools/shellcmd.py:241-290 | opens the redirected files in order and starts the process with those handles, environment and directory; how processes and files belong together is ShellWiring.ProcessesAreWired |
| ShellPipeline.Pipeline.CloseFiles | simulation/waf-tools/shellcmd.py:300-303 | closes each file of the group once, in order, and leaves the null device open |
| ShellPipeline.Pipeline.Run | simulation/waf-tools/shellcmd.py:213-345 | for every assignment of exit statuses, a parsed pipeline that ends in a command does exactly what its line means and returns its status |
| ShellPipeline.RunMeansLine | simulation/waf-tools/shellcmd.py:213-345 | executing the nodes of a script is right-nested short-circuit evaluation of its groups, with `cd` transparent and a group valued by its last command |
| ShellWiring.ProcessesAreWired | simulation/waf-tools/shellcmd.py:213-345 | whatever the statuses, a run starts the commands in order up to the first whose status does not let it go on and returns that status; a process reads a pipe exactly if it is not the first of its group, namely that of the process before, which was started with one; it writes a pipe exactly if it is not the last; a file it reads or writes was opened just before it, under the name of its redirection and in the right direction; it has the arguments, variables and directory of its command |
| ShellWiring.PipesJoin | simulation/waf-tools/shellcmd.py:241-254 | a process is started with a pipe for its output exactly if the next one is started to read it |
| ShellWiring.GroupsFollow | simulation/waf-tools/shellcmd.py:311-345 | a command begins a group exactly if it is the first or the one before ends one |
| ShellWiring.ItemsCollected | simulation/waf-tools/shellcmd.py:155-198 | the names redirected from, to and for errors are exactly those that stand among the items of the command |
| ShellDirectories.DirectoriesLead | simulation/waf-tools/shellcmd.py:220-227 | the path built by joining leads where going from directory to directory leads, and is "." exactly without any `cd` |
| ShellPipeline.RaisesExactlyWhen | simulation/waf-tools/shellcmd.py:224-227 | some run raises exactly when a `cd` names no directory or the line ends in a `cd` |
| ShellMeaning.EverythingClosed | simulation/waf-tools/shellcmd.py:295-303 | whatever the statuses, every file opened is closed exactly once, after all processes so far were waited for, and every process is waited for exactly once |
| ShellMeaning.PosixExactlyWhenUniform | simulation/waf-tools/shellcmd.py:311-345 | the evaluation is that of POSIX AND-OR lists for all statuses exactly on lines that do not mix the two operators |
| PatchRoundTrip.RoundTripExactlyWhenPlain | simulation/utils/check-style.py:215-265 | printing and parsing gives a patch set back exactly when no text or name holds a newline, no removed text starts with "-- ", no added text starts with "++ ", no position is negative and no line is unset |
| PatchRoundTrip.ParseIsPlain | simulation/utils/check-style.py:221-265 | whatever the parser returns is plain |
| PatchRoundTrip.HeaderRead | simulation/utils/check-style.py:193-195 | the chunk header gives both positions back |
| PatchRoundTrip.HeaderCounts | simulation/utils/check-style.py:176-195 | the two lengths in the header are the numbers of lines written below it with "-" or " " in front, and with "+" or " " |
| PatchRoundTrip.SplitFlatten | simulation/utils/check-style.py:215-219 | the written text falls into exactly the lines that were written |
| PatchSet.ParsePatchset | simulation/utils/check-style.py:221-265 | raises exactly when parsing fails, otherwise builds new objects that hold the parsed patches |
| PatchSet.ReadLine | simulation/utils/check-style.py:230-264 | one line updates the current patch or chunk as the step on values does |
| PatchSet.AddLineToLast | simulation/utils/check-style.py:246-263 | a line goes to the chunk added last, even behind a later patch header |
| PatchSet.WritePatch | simulation/utils/check-style.py:215-219 | writes the text of the patch, or raises at an unset line |
| PatchSet.WriteChunk | simulation/utils/check-style.py:193-197 | writes the header with the two side lengths, then the lines |
| PollingTable.Generate | ctrl/entry_list_gen.py:61-81 | two entries for each rule, then one for each port of both lists |
| PollingTable.PollingDriver.EntryAdd | ctrl/ctrl.c:449-581 | inserts the key with its mask and the action left in the shared data object, or fails |
| PollingTable.PollingDriver.Deploy | ctrl/ctrl.c:583-659 | installs as many entries as the 8-bit count says |
| PollingLookup.HitsIsMatching | ctrl/ctrl.c:481-559 | ternary matching of a list entry is equality, of the destination too unless it is a PFC entry |
| PollingLookup.InstallsImages | ctrl/ctrl.c:475-571 | every entry of a well-fed list is installed with its own action |
| PollingLookup.MatchesOnce | ctrl/ctrl.c:475-571 | no packet matches two installed entries |
| PollingLookup.WholeListAnswers | ctrl/entry_list_gen.py:61-81 | type 1 and 3 answer exactly where forwarding does, with its port and the ingress port as group; type 2 answers for every listed port whatever the destination |
| PollingLookup.AnswersExactlyWhenShort | ctrl/ctrl.c:583-628 | at most one match always; all answers as wanted exactly for at most 255 entries and some rule or no port |
| RegisterSync.StepKeepsInv | ctrl/ctrl.c:1345-1349 | every move of either thread and every spurious wake-up keeps lock, flag and lifetimes in agreement |
| RegisterSync.EveryMoveIsProper | ctrl/ctrl.c:1318-1353 | mutex and condition are alive whenever used, the flag is accessed under the lock, destruction and the read of the shadow table come after the callback's last use of the context |
| RegisterSync.NoWakeUpIsLost | ctrl/ctrl.c:984-988 | while the waiter sleeps the signal is still to come |
| RegisterSync.NeverStuck | ctrl/ctrl.c:1345-1349 | until the table has been read some thread can move without a spurious wake-up |
| RegisterSync.RunsEndAfterTheRead | ctrl/ctrl.c:1318-1380 | a run with k spurious wake-ups has at most 18 + 3k moves and ends after the read |
| BinaryRange.Int2BinIsNumeral | simulation/bindings/python/rad_util.py:74-105 | for a positive width exactly the values that fit are converted, to their numeral of that width |
| BinaryRange.NumeralReadBack | simulation/bindings/python/rad_util.py:108-130 | reading a numeral gives the value back |
| BinaryRange.Carry | simulation/bindings/python/rad_util.py:649-659 | the inner loop adds one, and its last toggle is the carry |
| BinaryRange.BinaryRange | simulation/bindings/python/rad_util.py:632-660 | terminates with all 2^bits numerals in order; nothing for width zero |
| BinaryRange.RangeAgrees | simulation/bindings/python/rad_util.py:632-660 | the k-th string is int2bin(k, bits) and bin2int gives k back |

## Left out

- ns-3 devices, IP addresses, `TakeDown` of devices and `RedistributeQp`: external; a host is named by its node and a forwarding table is a list of interface numbers per destination.
- Delay and bandwidth of a link that the C++ map creates on its first lookup are indeterminate there; the model gives it zero, and such a link is never up.
- Simulation.RoutingState.CalculateRoutes: recorded costs of pairs that are no longer reachable are kept, as in the source, and nothing more is said about them.
- `topsort_levels_core` with tables that did not come from pairs.
- The pool's jobs: running one returns an arbitrary status; output files, XML, valgrind and the suite filters are not modelled, and the shared queues are taken to be atomic and first-in first-out.
- The `DOCA_PCC_*` and `TIME_SYNC` variants of the controller, its counters and mailbox handlers.
- A shift of the abort threshold by 32 or more is undefined in C; the model reads the shift count modulo 32.
- Queue replay: shares are compared as exact quotients, weights are any nearest tenth of the exact quotient, and degrees are added up exactly; which way the binary value of a quotient halfway between two tenths goes, and binary rounding errors in the sums, are not modelled.
- ShellPipeline.Pipeline.Run: the verbose messages, `shlex` splitting and a failing open or Popen are not modelled; the status of a process is an arbitrary number.
- ShellPipeline.Pipeline.Parse: what the fields hold after a failed assertion is not stated.
- A line of a patch is a value: the setters of its object are called once, before it joins a chunk. `append_to_line` and the whitespace filter are not part of this model.
- PollingTable.PollingDriver.EntryAdd: addresses are 32-bit words; reading dotted notation is left out. The SDK is taken to refuse a data field of another action and a second entry with the same key, and to give a new data object no action.
- The callback of the register hand-over is taken to be called once for each request, at any time after it; its time stamps are left out.
- `bin2int` on the empty string or on anything but bits, which raises, and `int2bin` with a negative width.
- `third_deadlock.cc`, `parse_telemetry`, the host side of the detection agent, `grid.py`, the antenna and polygon helpers and the binding generators: constants, file formats, sockets or drawing.
